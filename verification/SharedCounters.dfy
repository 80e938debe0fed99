/**
 The installation-wide counters: a fixed one-minute window and the account
 backoff, which is kept in two forms, a stored deadline on one node and a
 failure count with its last instant in the shared store.
 */
module SharedCounters {
  import opened Arithmetic
  import opened Common
  import opened SlidingWindow

  const RETRY_AFTER := 5 * SECOND

  // ---- Fixed windows -----------------------------------------------------------------------------

  function WindowOf(t: nat): nat {
    t - t % MINUTE
  }

  /** Attempts, admitted or not, in one aligned window. */
  function Bumps(attempts: seq<nat>, window: nat): nat {
    if attempts == [] then 0
    else Bumps(attempts[..|attempts| - 1], window) + (if WindowOf(attempts[|attempts| - 1]) == window then 1 else 0)
  }

  function Admitted(attempts: seq<nat>, allowance: nat): seq<int> {
    if attempts == [] then [] else
    var before, t := Admitted(attempts[..|attempts| - 1], allowance), attempts[|attempts| - 1];
    if Bumps(attempts, WindowOf(t)) <= allowance then before + [t as int] else before
  }

  function InWindow(hits: seq<int>, window: nat): nat {
    if hits == [] then 0
    else InWindow(hits[..|hits| - 1], window) + (if window <= hits[|hits| - 1] < window + MINUTE then 1 else 0)
  }

  lemma InWindowAppend(hits: seq<int>, t: int, window: nat)
    ensures InWindow(hits + [t], window) == InWindow(hits, window) + if window <= t < window + MINUTE then 1 else 0
  {
    assert (hits + [t])[..|hits|] == hits;
  }

  lemma WindowHolds(t: nat, window: nat)
    requires window % MINUTE == 0
    ensures WindowOf(t) == window <==> window <= t < window + MINUTE
  {
    var q, w := t / MINUTE, window / MINUTE;
    assert t == q * MINUTE + t % MINUTE && window == w * MINUTE;
  }

  /** One aligned window admits no more than the allowance. */
  lemma {:induction false} WindowAdmitsAllowance(attempts: seq<nat>, allowance: nat, window: nat)
    requires window % MINUTE == 0
    ensures InWindow(Admitted(attempts, allowance), window) <= allowance
    ensures InWindow(Admitted(attempts, allowance), window) <= Bumps(attempts, window)
  {
    if attempts != [] {
      var front, t := attempts[..|attempts| - 1], attempts[|attempts| - 1];
      WindowAdmitsAllowance(front, allowance, window);
      WindowHolds(t, window);
      InWindowAppend(Admitted(front, allowance), t, window);
    }
  }

  /** The aligned window in which the minute behind `lo` starts. */
  function FirstWindow(lo: int): nat {
    WindowOf(if lo < 0 then 0 else lo + 1)
  }

  lemma WindowsCover(lo: int, t: int)
    requires lo < t <= lo + MINUTE && t >= 0
    ensures FirstWindow(lo) <= t < FirstWindow(lo) + 2 * MINUTE
  {
    var first := if lo < 0 then 0 else lo + 1;
    assert first % MINUTE < MINUTE;
  }

  lemma {:induction false} MinuteSpansTwoWindows(hits: seq<int>, lo: int)
    requires forall i | 0 <= i < |hits| :: hits[i] >= 0
    ensures InMinute(hits, lo) <= InWindow(hits, FirstWindow(lo)) + InWindow(hits, FirstWindow(lo) + MINUTE)
  {
    if hits != [] {
      MinuteSpansTwoWindows(hits[..|hits| - 1], lo);
      if lo < hits[|hits| - 1] <= lo + MINUTE { WindowsCover(lo, hits[|hits| - 1]); }
    }
  }

  lemma {:induction false} AdmittedAreNatural(attempts: seq<nat>, allowance: nat)
    ensures forall i | 0 <= i < |Admitted(attempts, allowance)| :: Admitted(attempts, allowance)[i] >= 0
  {
    if attempts != [] { AdmittedAreNatural(attempts[..|attempts| - 1], allowance); }
  }

  /** Any half-open minute admits at most twice the allowance. */
  lemma AtMostTwicePerMinute(attempts: seq<nat>, allowance: nat, lo: int)
    ensures InMinute(Admitted(attempts, allowance), lo) <= 2 * allowance
  {
    var first, a := if lo < 0 then 0 else lo + 1, FirstWindow(lo);
    assert a % MINUTE == 0 && (a + MINUTE) % MINUTE == 0 by { assert a == first / MINUTE * MINUTE; }
    AdmittedAreNatural(attempts, allowance);
    MinuteSpansTwoWindows(Admitted(attempts, allowance), lo);
    WindowAdmitsAllowance(attempts, allowance, a);
    WindowAdmitsAllowance(attempts, allowance, a + MINUTE);
  }

  datatype Slot = Slot(subject: string, window: nat)

  function CountAt(counts: map<Slot, nat>, slot: Slot): nat {
    if slot in counts then counts[slot] else 0
  }

  function AttemptsOf(attempts: map<string, seq<nat>>, subject: string): seq<nat> {
    if subject in attempts then attempts[subject] else []
  }

  /** A subject's counts are the attempts it made. */
  ghost predicate Counted(counts: map<Slot, nat>, attempts: seq<nat>, subject: string) {
    forall w: nat :: CountAt(counts, Slot(subject, w)) == Bumps(attempts, w)
  }

  lemma BumpIsCounted(counts: map<Slot, nat>, attempts: seq<nat>, subject: string, now: nat)
    requires Counted(counts, attempts, subject)
    ensures var slot := Slot(subject, WindowOf(now)); Counted(counts[slot := CountAt(counts, slot) + 1], attempts + [now], subject)
    ensures CountAt(counts, Slot(subject, WindowOf(now))) + 1 == Bumps(attempts + [now], WindowOf(now))
  {
    assert (attempts + [now])[..|attempts|] == attempts;
  }

  lemma OthersStayCounted(counts: map<Slot, nat>, attempts: seq<nat>, other: string, slot: Slot, count: nat)
    requires Counted(counts, attempts, other) && slot.subject != other
    ensures Counted(counts[slot := count], attempts, other)
  {
    forall w: nat ensures CountAt(counts[slot := count], Slot(other, w)) == Bumps(attempts, w) {
      assert CountAt(counts, Slot(other, w)) == Bumps(attempts, w);
    }
  }

  ghost predicate AllCounted(counts: map<Slot, nat>, attempts: map<string, seq<nat>>) {
    forall subject :: Counted(counts, AttemptsOf(attempts, subject), subject)
  }

  lemma BumpKeepsCounted(counts: map<Slot, nat>, attempts: map<string, seq<nat>>, subject: string, now: nat)
    requires AllCounted(counts, attempts)
    ensures var slot := Slot(subject, WindowOf(now));
            AllCounted(counts[slot := CountAt(counts, slot) + 1], attempts[subject := AttemptsOf(attempts, subject) + [now]])
  {
    var slot, before := Slot(subject, WindowOf(now)), AttemptsOf(attempts, subject);
    var counts', attempts' := counts[slot := CountAt(counts, slot) + 1], attempts[subject := before + [now]];
    forall s ensures Counted(counts', AttemptsOf(attempts', s), s) {
      if s == subject {
        BumpIsCounted(counts, before, subject, now);
      } else {
        assert AttemptsOf(attempts', s) == AttemptsOf(attempts, s);
        OthersStayCounted(counts, AttemptsOf(attempts, s), s, slot, CountAt(counts, slot) + 1);
      }
    }
  }

  lemma AdmittedAppend(attempts: seq<nat>, now: nat, allowance: nat)
    ensures Admitted(attempts + [now], allowance) ==
            if Bumps(attempts + [now], WindowOf(now)) <= allowance then Admitted(attempts, allowance) + [now as int] else Admitted(attempts, allowance)
  {
    assert (attempts + [now])[..|attempts|] == attempts;
  }

  /** One bucket of the shared store: a count per subject and window. */
  class FixedWindow {
    var counts: map<Slot, nat>
    // Every attempt that reached the store, by subject.
    ghost var attempts: map<string, seq<nat>>

    ghost predicate Valid()
      reads this
    {
      AllCounted(counts, attempts)
    }

    constructor ()
      ensures Valid() && attempts == map[]
    {
      counts, attempts := map[], map[];
    }

    method Bump(subject: string, window: nat, ghost now: nat) returns (count: nat)
      requires Valid() && window == WindowOf(now)
      modifies this
      ensures Valid() && attempts == old(attempts)[subject := AttemptsOf(old(attempts), subject) + [now]]
      ensures count == Bumps(AttemptsOf(attempts, subject), window)
    {
      var slot := Slot(subject, window);
      count := CountAt(counts, slot) + 1;
      BumpIsCounted(counts, AttemptsOf(attempts, subject), subject, now);
      BumpKeepsCounted(counts, attempts, subject, now);
      counts, attempts := counts[slot := count], attempts[subject := AttemptsOf(attempts, subject) + [now]];
    }

    /** Charges every attempt, admitted or not; a refusal waits for the next window, an unreachable store fails closed. */
    method Allow(subject: string, now: nat, allowance: nat, reachable: bool) returns (wait: int)
      requires Valid()
      modifies this
      ensures Valid()
      ensures attempts == if subject != "" && reachable then old(attempts)[subject := AttemptsOf(old(attempts), subject) + [now]] else old(attempts)
      ensures subject == "" ==> wait == 0
      ensures subject != "" && reachable ==>
                (wait == 0 <==> Admitted(AttemptsOf(attempts, subject), allowance) == Admitted(AttemptsOf(old(attempts), subject), allowance) + [now as int])
      ensures subject != "" && reachable && wait != 0 ==> 0 < wait <= MINUTE && WindowOf(now + wait) == now + wait == WindowOf(now) + MINUTE
      ensures subject != "" && !reachable ==> wait == RETRY_AFTER
    {
      if subject == "" { return 0; }
      if !reachable { return RETRY_AFTER; }
      var window := WindowOf(now);
      AdmittedAppend(AttemptsOf(attempts, subject), now, allowance);
      var count := Bump(subject, window, now);
      if count <= allowance { return 0; }
      WindowHolds(window + MINUTE, window + MINUTE);
      return window + MINUTE - now;
    }
  }

  // ---- Account backoff ----------------------------------------------------------------------------------

  const FAILURES_BEFORE_BACKOFF := 5
  const MAX_ACCOUNT_BACKOFF := 60 * SECOND

  /** The delay curve as both backends compute it, with its shift bounded. */
  function BackoffDelay(failures: nat): int {
    if failures <= FAILURES_BEFORE_BACKOFF then 0
    else Min(Pow2(Min(failures - FAILURES_BEFORE_BACKOFF - 1, 16)) * SECOND, MAX_ACCOUNT_BACKOFF)
  }

  /** The bounded shift never shows: past five failures the delay is min(2^(failures-6), 60) seconds. */
  lemma BackoffCurve(failures: nat)
    requires failures > FAILURES_BEFORE_BACKOFF
    ensures BackoffDelay(failures) == Min(Pow2(failures - 6), 60) * SECOND
  {
    if failures - 6 > 16 {
      Pow2Grows(6, 16);
      Pow2Grows(16, failures - 6);
      assert Pow2(6) == 64;
    }
  }

  datatype Event = Failure(at: int) | Success(at: int)

  /** One node's account: the failures so far, and the deadline once there is one. */
  datatype Account = Account(failures: nat, until: Option<int>)

  function RecordFailure(a: Option<Account>, now: int): Account {
    var before := if a.Some? then a.value else Account(0, None);
    var n := before.failures + 1;
    if n <= FAILURES_BEFORE_BACKOFF then before.(failures := n)
    else Account(n, Some(now + Min(Pow2(Min(n - FAILURES_BEFORE_BACKOFF - 1, 16)) * SECOND, MAX_ACCOUNT_BACKOFF)))
  }

  function AccountDelay(a: Option<Account>, now: int): int {
    if a.Some? && a.value.until.Some? && a.value.until.value > now then a.value.until.value - now else 0
  }

  /** The shared store's account: failures and the last one's instant. */
  datatype SharedAccount = SharedAccount(failures: nat, lastFailure: int)

  function SharedDelay(a: Option<SharedAccount>, now: int): int {
    if a.Some? && a.value.lastFailure + BackoffDelay(a.value.failures) > now
    then a.value.lastFailure + BackoffDelay(a.value.failures) - now else 0
  }

  function LocalAfter(events: seq<Event>): Option<Account> {
    if events == [] then None else
    match events[|events| - 1]
    case Failure(at) => Some(RecordFailure(LocalAfter(events[..|events| - 1]), at))
    case Success(_) => None
  }

  function SharedAfter(events: seq<Event>): Option<SharedAccount> {
    if events == [] then None else
    var before := SharedAfter(events[..|events| - 1]);
    match events[|events| - 1]
    case Failure(at) => Some(SharedAccount((if before.Some? then before.value.failures else 0) + 1, at))
    case Success(_) => None
  }

  ghost predicate InOrder(events: seq<Event>, now: int) {
    && (forall i, j | 0 <= i < j < |events| :: events[i].at <= events[j].at)
    && (forall i | 0 <= i < |events| :: events[i].at <= now)
  }

  function DeadlineOf(a: SharedAccount): Option<int> {
    if a.failures <= FAILURES_BEFORE_BACKOFF then None else Some(a.lastFailure + BackoffDelay(a.failures))
  }

  /** Both forms of an account hold the same failures, and the stored deadline is the derived one. */
  ghost predicate Same(l: Option<Account>, s: Option<SharedAccount>) {
    && (l.Some? <==> s.Some?)
    && (l.Some? ==> l.value.failures == s.value.failures && l.value.until == DeadlineOf(s.value))
  }

  lemma {:induction false} SameAccount(events: seq<Event>)
    ensures Same(LocalAfter(events), SharedAfter(events))
  {
    if events != [] { SameAccount(events[..|events| - 1]); }
  }

  lemma LastFailureHappened(events: seq<Event>)
    ensures SharedAfter(events).Some? ==> events != [] && SharedAfter(events).value.lastFailure == events[|events| - 1].at
  {}

  /** Over every history, with one clock, both backends hold an account off for the same time. */
  lemma BackendsAgree(events: seq<Event>, now: int)
    requires InOrder(events, now)
    ensures AccountDelay(LocalAfter(events), now) == SharedDelay(SharedAfter(events), now)
  {
    SameAccount(events);
    LastFailureHappened(events);
  }
}
