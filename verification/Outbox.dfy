/**
 One attempt of the outbox worker: claim a due job, run it inside its lease,
 and settle it. Times are nanoseconds; the clock, the loader and the module's
 answers are inputs.
 */
module Outbox {
  import opened Arithmetic
  import opened Common
  import opened Ledger

  const RETRY_FLOOR := 30 * SECOND
  const RETRY_CAP := 3600 * SECOND
  const LEASE_TIME := 125 * SECOND
  const LEASE_MARGIN := 5 * SECOND

  // ---- When to retry -----------------------------------------------------------------------

  /** The delay of an attempt before jitter: doubled per attempt up to the cap. */
  function Doubled(attempt: int): int {
    Min(RETRY_FLOOR * Pow2(if attempt <= 1 then 0 else attempt - 1), RETRY_CAP)
  }

  /** The doubling loop stops at the cap, which no later doubling leaves. */
  method RetryDelay(attempt: int, jitter: nat) returns (delay: int)
    ensures Doubled(attempt) / 2 <= delay < Doubled(attempt)
    ensures 0 < delay < RETRY_CAP
    ensures delay == Doubled(attempt) / 2 + jitter % (Doubled(attempt) / 2)
  {
    delay := RETRY_FLOOR;
    var i := 1;
    ghost var last := if attempt <= 1 then 1 else attempt;
    while i < attempt && delay < RETRY_CAP
      invariant 1 <= i <= last && delay == Doubled(i)
    {
      delay := delay * 2;
      if delay > RETRY_CAP {
        delay := RETRY_CAP;
      }
      i := i + 1;
    }
    Pow2Grows(i - 1, last - 1);
    assert delay == Doubled(attempt);
    delay := delay / 2 + jitter % (delay / 2);
  }

  /** A provider's deadline is honoured up to the cap; a missing or elapsed one falls back to the backoff. */
  method RetryDue(now: int, attempt: int, jitter: nat, retryAt: Option<int>) returns (due: int)
    ensures now < due <= now + RETRY_CAP
    ensures retryAt.Some? && retryAt.value > now ==> due == Min(retryAt.value, now + RETRY_CAP)
    ensures retryAt.None? || retryAt.value <= now ==> Doubled(attempt) / 2 <= due - now < Doubled(attempt)
  {
    if retryAt.Some? && retryAt.value > now {
      if retryAt.value > now + RETRY_CAP {
        return now + RETRY_CAP;
      }
      return retryAt.value;
    }
    var delay := RetryDelay(attempt, jitter);
    return now + delay;
  }

  // ---- One claimed job -------------------------------------------------------------------------

  datatype Kind = Unauthorized | Superseded | OperatorReview | ProviderAuth | ConflictError | AckForged | NotConfigured | Canceled | OtherError

  datatype Error = Error(kind: Kind, retryAt: Option<int>)

  datatype JobKind = Converge | Scrub | Activate

  datatype Job = Job(kind: JobKind, attempt: int)

  datatype Stage = Gating | Activating | Loading | Syncing

  /** Which errors end a job at each stage; all others are retried. */
  predicate Terminal(stage: Stage, kind: Kind) {
    match kind
    case Unauthorized => true
    case Superseded => true
    case OperatorReview => true
    case ProviderAuth => !stage.Gating?
    case AckForged => stage.Activating? || stage.Syncing?
    case ConflictError => stage.Activating?
    case NotConfigured => stage.Activating?
    case _ => false
  }

  datatype Settlement =
    | Succeed(revision: int, at: int)
    | Fail(revision: int, at: int, error: Error)
    | Retry(revision: int, at: int, due: int, error: Error)
    | Activated(at: int)

  /** What loading and syncing answer in one round of the loop. */
  datatype Round = Round(load: Result<int, Error>, sync: Option<Error>, changes: seq<Change>)

  /** A call of the module: which revision, which in-job acknowledgements it may skip, what it reported and how it ended. */
  datatype Call = Call(revision: int, acks: seq<Change>, changes: seq<Change>, error: Option<Error>)

  predicate SameName(a: Change, b: Change) {
    a.surface == b.surface && a.name == b.name
  }

  /** An acknowledgement handed to call `i` was reported by an earlier call, with one revision throughout. */
  ghost predicate AcksOfOwnRevision(calls: seq<Call>) {
    forall i, ack | 0 <= i < |calls| && ack in calls[i].acks ::
      exists j | 0 <= j < i :: ack in calls[j].changes && forall m | j <= m <= i :: calls[m].revision == calls[i].revision
  }

  /** The acknowledgements a job holds after its calls so far. */
  ghost predicate Holds(calls: seq<Call>, completed: seq<Change>, revision: int) {
    forall ack | ack in completed ::
      exists j | 0 <= j < |calls| :: ack in calls[j].changes && forall m | j <= m < |calls| :: calls[m].revision == revision
  }

  lemma CallKeepsAcks(calls: seq<Call>, call: Call)
    requires AcksOfOwnRevision(calls) && Holds(calls, call.acks, call.revision)
    ensures AcksOfOwnRevision(calls + [call])
    ensures Holds(calls + [call], call.acks, call.revision)
  {
    var all := calls + [call];
    forall ack | ack in call.acks
      ensures exists j | 0 <= j < |calls| :: ack in all[j].changes && forall m | j <= m < |all| :: all[m].revision == call.revision
    {
      var j :| 0 <= j < |calls| && ack in calls[j].changes && forall m | j <= m < |calls| :: calls[m].revision == call.revision;
      assert ack in all[j].changes;
    }
    forall i, ack | 0 <= i < |all| && ack in all[i].acks
      ensures exists j | 0 <= j < i :: ack in all[j].changes && forall m | j <= m <= i :: all[m].revision == all[i].revision
    {
      if i < |calls| {
        var j :| 0 <= j < i && ack in calls[j].changes && forall m | j <= m <= i :: calls[m].revision == calls[i].revision;
        assert ack in all[j].changes;
      }
    }
    assert call == all[|calls|];
  }

  lemma RememberedIsHeld(calls: seq<Call>, call: Call, completed: seq<Change>)
    requires Holds(calls + [call], call.acks, call.revision) && forall c | c in completed :: c in call.acks || c in call.changes
    ensures Holds(calls + [call], completed, call.revision)
  {
    assert call == (calls + [call])[|calls|];
  }

  predicate Named(changes: seq<Change>, c: Change) {
    exists m | m in changes :: SameName(m, c)
  }

  /** Every name reported so far under one revision is acknowledged to the next call, and none under another. */
  ghost predicate Follows(before: Call, call: Call) {
    if before.revision == call.revision then forall c | c in before.acks || c in before.changes :: Named(call.acks, c)
    else call.acks == []
  }

  /** The calls of a job: what its rounds loaded and answered, the first with no acknowledgement, each next one following on. */
  ghost predicate CallsOf(calls: seq<Call>, rounds: nat -> Round) {
    && (forall i: nat | i < |calls| ::
          rounds(i).load == Ok(calls[i].revision) && calls[i].changes == rounds(i).changes && calls[i].error == rounds(i).sync)
    && (calls != [] ==> calls[0].acks == [])
    && (forall i: nat | 0 < i < |calls| :: Follows(calls[i - 1], calls[i]))
  }

  /** The first `n` calls failed and were waited out. */
  ghost predicate Waited(calls: seq<Call>, n: int, waits: nat -> bool, leaseSafe: int) {
    forall i: nat | i < n && i < |calls| :: calls[i].error.Some? && WaitedOut(calls[i].error.value, waits(i), leaseSafe)
  }

  /** What the job may acknowledge next: nothing yet, or whatever its last call knew or reported. */
  ghost predicate Remembers(calls: seq<Call>, completed: seq<Change>) {
    if calls == [] then completed == []
    else forall c | c in calls[|calls| - 1].acks || c in calls[|calls| - 1].changes :: Named(completed, c)
  }

  lemma CallFollows(calls: seq<Call>, call: Call, rounds: nat -> Round, completed: seq<Change>)
    requires CallsOf(calls, rounds) && Remembers(calls, completed)
    requires calls == [] || calls[|calls| - 1].revision == call.revision ==> call.acks == completed
    requires calls != [] && calls[|calls| - 1].revision != call.revision ==> call.acks == []
    requires rounds(|calls|) == Round(Ok(call.revision), call.error, call.changes)
    ensures CallsOf(calls + [call], rounds)
  {
    var all := calls + [call];
    assert calls != [] ==> all[0] == calls[0] && Follows(calls[|calls| - 1], call);
    forall i: nat | 0 < i < |all| ensures Follows(all[i - 1], all[i]) {
      if i < |calls| { assert Follows(calls[i - 1], calls[i]); }
    }
  }

  lemma NamesStay(before: seq<Change>, changes: seq<Change>)
    requires before <= changes
    ensures forall c | c in before :: Named(changes, c)
  {
    forall c | c in before ensures Named(changes, c) { assert c in changes; }
  }

  ghost predicate NamesOnce(changes: seq<Change>) {
    forall i, j | 0 <= i < j < |changes| :: !SameName(changes[i], changes[j])
  }

  method Find(changes: seq<Change>, c: Change) returns (found: bool)
    ensures found == Named(changes, c)
  {
    for j := 0 to |changes|
      invariant forall k | 0 <= k < j :: !SameName(changes[k], c)
    {
      if SameName(changes[j], c) {
        return true;
      }
    }
    return false;
  }

  /** Adds what a call reported to the acknowledgements, each name once. */
  method Remember(completed: seq<Change>, changes: seq<Change>) returns (merged: seq<Change>)
    ensures completed <= merged && (NamesOnce(completed) ==> NamesOnce(merged))
    ensures forall c | c in merged :: c in completed || c in changes
    ensures forall c | c in changes :: Named(merged, c)
  {
    merged := completed;
    for i := 0 to |changes|
      invariant completed <= merged && (NamesOnce(completed) ==> NamesOnce(merged))
      invariant forall c | c in merged :: c in completed || c in changes
      invariant forall c | c in changes[..i] :: Named(merged, c)
    {
      ghost var before := merged;
      var found := Find(merged, changes[i]);
      if !found {
        merged := merged + [changes[i]];
        assert changes[i] in merged;
      }
      forall c | c in changes[..i + 1] ensures Named(merged, c) {
        if c in changes[..i] { var m :| m in before && SameName(m, c); assert m in merged; }
      }
    }
    assert changes[..|changes|] == changes;
  }

  /** Everything a job knows about its calls so far. */
  ghost predicate Recorded(calls: seq<Call>, rounds: nat -> Round, completed: seq<Change>, revision: int) {
    && AcksOfOwnRevision(calls) && CallsOf(calls, rounds)
    && Holds(calls, completed, revision) && Remembers(calls, completed) && revision == LastRevision(calls)
  }

  lemma CallIsRecorded(calls: seq<Call>, rounds: nat -> Round, completed: seq<Change>, revision: int, call: Call)
    requires Recorded(calls, rounds, completed, revision)
    requires call.acks == if revision == call.revision then completed else []
    requires rounds(|calls|) == Round(Ok(call.revision), call.error, call.changes)
    ensures AcksOfOwnRevision(calls + [call]) && CallsOf(calls + [call], rounds) && Holds(calls + [call], call.acks, call.revision)
  {
    CallKeepsAcks(calls, call);
    CallFollows(calls, call, rounds, completed);
  }

  lemma MergeIsRecorded(calls: seq<Call>, rounds: nat -> Round, call: Call, merged: seq<Change>)
    requires AcksOfOwnRevision(calls + [call]) && CallsOf(calls + [call], rounds) && Holds(calls + [call], call.acks, call.revision)
    requires call.acks <= merged && (forall c | c in merged :: c in call.acks || c in call.changes) && (forall c | c in call.changes :: Named(merged, c))
    ensures Recorded(calls + [call], rounds, merged, call.revision)
  {
    RememberedIsHeld(calls, call, merged);
    NamesStay(call.acks, merged);
  }

  lemma WaitedGrows(calls: seq<Call>, call: Call, waits: nat -> bool, leaseSafe: int)
    requires Waited(calls, |calls|, waits, leaseSafe)
    ensures Waited(calls + [call], |calls|, waits, leaseSafe)
    ensures call.error.Some? && WaitedOut(call.error.value, waits(|calls|), leaseSafe) ==> Waited(calls + [call], |calls| + 1, waits, leaseSafe)
  {}

  function LastRevision(calls: seq<Call>): int {
    if calls == [] then 0 else calls[|calls| - 1].revision
  }

  /** The worker's clock: reading it or waiting may let any time pass, and a wait that ends normally lasted its delay. */
  class Clock {
    var time: int
    var readings: nat
    const passes: nat -> nat

    constructor (time: int, passes: nat -> nat)
      ensures this.time == time && this.passes == passes
    {
      this.time, this.readings, this.passes := time, 0, passes;
    }

    method Now() returns (t: int)
      modifies this
      ensures t == time >= old(time)
    {
      time, readings := time + passes(readings), readings + 1;
      return time;
    }

    method Wait(delay: int)
      modifies this
      ensures time >= old(time) && time >= old(time) + delay
    {
      time, readings := time + (if delay > 0 then delay else 0) + passes(readings), readings + 1;
    }
  }

  class Worker {
    const clock: Clock
    var settled: seq<Settlement>
    ghost var calls: seq<Call>
    ghost var tries: nat

    constructor (clock: Clock)
      ensures this.clock == clock && settled == [] && calls == [] && tries == 0
    {
      this.clock, settled, calls, tries := clock, [], [], 0;
    }

    /** How an attempt that ended in `error` is settled. */
    method SettleError(stage: Stage, job: Job, revision: int, error: Error, jitter: nat)
      modifies this`settled, clock
      ensures |settled| == |old(settled)| + 1 && old(settled) <= settled
      ensures SettlesError(settled[|settled| - 1], stage, revision, error)
      ensures clock.time >= old(clock.time)
    {
      var at := clock.Now();
      if Terminal(stage, error.kind) {
        settled := settled + [Fail(revision, at, error)];
      } else {
        var due := RetryDue(at, job.attempt, jitter, error.retryAt);
        settled := settled + [Retry(revision, at, due, error)];
      }
    }

    /** Whether a failed round is worth another one inside the lease. */
    method WaitOut(error: Error, leaseSafe: int, waits: bool) returns (result: Option<Error>)
      modifies clock
      ensures result.None? ==> WaitedOut(error, waits, leaseSafe) && clock.time >= error.retryAt.value
      ensures result.None? ==> old(clock.time) < leaseSafe && clock.time > old(clock.time)
      ensures result.Some? ==> EndsWith(result.value, Some(error))
      ensures clock.time >= old(clock.time)
    {
      if error.retryAt.None? { return Some(error); }
      var at := error.retryAt.value;
      var now := clock.Now();
      if at <= now || at > leaseSafe { return Some(error); }
      if !waits { return Some(Error(Canceled, None)); }
      now := clock.Now();
      clock.Wait(at - now);
      return None;
    }

    /** Activates until a round succeeds or fails for good; `tries` counts the rounds it ran. */
    method RunActivation(job: Job, rounds: nat -> Option<Error>, waits: nat -> bool, leaseSafe: int, jitter: nat)
      modifies this`settled, this`tries, clock
      ensures |settled| == |old(settled)| + 1 && old(settled) <= settled
      ensures SettlesActivation(settled[|settled| - 1], rounds, waits, leaseSafe, tries)
    {
      tries := 0;
      var round: nat := 0;
      var result: Option<Error> := None;
      while result.None?
        invariant settled == old(settled) && tries == round
        invariant forall i: nat | i < (if result.None? then round else round - 1) :: rounds(i).Some? && WaitedOut(rounds(i).value, waits(i), leaseSafe)
        invariant result.Some? ==> round > 0 && EndsWith(result.value, rounds(round - 1))
        decreases result.None?, leaseSafe - clock.time
      {
        var failure := rounds(round);
        tries := tries + 1;
        if failure.None? {
          var at := clock.Now();
          settled := settled + [Activated(at)];
          return;
        }
        result := WaitOut(failure.value, leaseSafe, waits(round));
        round := round + 1;
      }
      SettleError(Activating, job, 0, result.value, jitter);
    }

    /** Runs a converge or scrub job to its one settlement. */
    method RunSync(job: Job, rounds: nat -> Round, waits: nat -> bool, leaseSafe: int, jitter: nat)
      modifies this`settled, this`calls, clock
      ensures |settled| == |old(settled)| + 1 && old(settled) <= settled
      ensures CallsOf(calls, rounds) && Waited(calls, |calls| - 1, waits, leaseSafe) && AcksOfOwnRevision(calls)
      ensures SettlesSync(settled[|settled| - 1], rounds, calls)
    {
      calls := [];
      var completed, revision, round: nat := [], 0, 0;
      var result: Option<Error> := None;
      while result.None?
        invariant settled == old(settled) && round == |calls| && Recorded(calls, rounds, completed, revision)
        invariant Waited(calls, if result.None? then round else round - 1, waits, leaseSafe)
        invariant result.Some? ==> calls != [] && EndsWith(result.value, calls[|calls| - 1].error)
        decreases result.None?, leaseSafe - clock.time
      {
        var answer := rounds(round);
        if answer.load.Err? {
          SettleError(Loading, job, revision, answer.load.error, jitter);
          return;
        }
        ghost var before, call := calls,
                                  Call(answer.load.value, if revision == answer.load.value then completed else [], answer.changes, answer.sync);
        CallIsRecorded(calls, rounds, completed, revision, call);
        WaitedGrows(calls, call, waits, leaseSafe);
        if revision != answer.load.value {
          completed := [];
        }
        revision := answer.load.value;
        calls := calls + [call];
        if answer.sync.None? {
          var at := clock.Now();
          settled := settled + [Succeed(revision, at)];
          return;
        }
        completed := Remember(completed, answer.changes);
        MergeIsRecorded(before, rounds, call, completed);
        result := WaitOut(answer.sync.value, leaseSafe, waits(round));
        round := round + 1;
      }
      SettleError(Syncing, job, revision, result.value, jitter);
    }

    /** A claimed job is settled exactly once, a job nobody claimed never. */
    method RunOnce(world: World) returns (worked: bool, ghost leaseSafe: int)
      modifies this, clock
      ensures worked == world.claim.Some?
      ensures !worked ==> settled == old(settled) && calls == [] && tries == 0
      ensures worked ==> |settled| == |old(settled)| + 1 && old(settled) <= settled
      ensures worked ==> SettlesJob(settled[|settled| - 1], world, leaseSafe, calls, tries)
      ensures leaseSafe >= old(clock.time) + LEASE_TIME - LEASE_MARGIN
      ensures CallsOf(calls, world.rounds) && Waited(calls, |calls| - 1, world.waits, leaseSafe) && AcksOfOwnRevision(calls)
    {
      calls, tries := [], 0;
      var now := clock.Now();
      var leaseEnd := now + LEASE_TIME - LEASE_MARGIN;
      worked, leaseSafe := world.claim.Some?, leaseEnd;
      if world.claim.None? { return; }
      var job := world.claim.value;
      if world.gate.Some? {
        SettleError(Gating, job, 0, world.gate.value, world.jitter);
        return;
      }
      if job.kind.Activate? {
        if !world.configured {
          SettleError(Activating, job, 0, Error(NotConfigured, None), world.jitter);
          return;
        }
        RunActivation(job, world.activations, world.waits, leaseEnd, world.jitter);
        return;
      }
      RunSync(job, world.rounds, world.waits, leaseEnd, world.jitter);
    }
  }

  /** A round ends with its own error, or canceled while waiting for the next. */
  predicate EndsWith(error: Error, own: Option<Error>) {
    own.Some? && (error == own.value || error == Error(Canceled, None))
  }

  /** The last call succeeded at the revision it loaded; or the next load failed, or the last call did. */
  ghost predicate SettlesSync(s: Settlement, rounds: nat -> Round, calls: seq<Call>) {
    if calls != [] && calls[|calls| - 1].error.None? then s.Succeed? && s.revision == calls[|calls| - 1].revision
    else
      || (rounds(|calls|).load.Err? && SettlesError(s, Loading, LastRevision(calls), rounds(|calls|).load.error))
      || (calls != [] && exists error | EndsWith(error, calls[|calls| - 1].error) :: SettlesError(s, Syncing, LastRevision(calls), error))
  }

  /** The failed round named a time within the lease and its wait was not canceled. */
  predicate WaitedOut(error: Error, waits: bool, leaseSafe: int) {
    waits && error.retryAt.Some? && error.retryAt.value <= leaseSafe
  }

  /** The last round decides, and every earlier one failed and was waited out. */
  ghost predicate SettlesActivation(s: Settlement, rounds: nat -> Option<Error>, waits: nat -> bool, leaseSafe: int, tries: nat) {
    && tries > 0
    && (forall i: nat | i < tries - 1 :: rounds(i).Some? && WaitedOut(rounds(i).value, waits(i), leaseSafe))
    && (s.Activated? <==> rounds(tries - 1).None?)
    && (!s.Activated? ==> exists error | EndsWith(error, rounds(tries - 1)) :: SettlesError(s, Activating, 0, error))
  }

  ghost predicate SettlesJob(s: Settlement, world: World, leaseSafe: int, calls: seq<Call>, tries: nat)
    requires world.claim.Some?
  {
    if world.gate.Some? then SettlesError(s, Gating, 0, world.gate.value)
    else if !world.claim.value.kind.Activate? then SettlesSync(s, world.rounds, calls)
    else if !world.configured then SettlesError(s, Activating, 0, Error(NotConfigured, None))
    else SettlesActivation(s, world.activations, world.waits, leaseSafe, tries)
  }

  /** What a job's answers are, round by round. */
  datatype World = World(claim: Option<Job>, gate: Option<Error>, configured: bool, activations: nat -> Option<Error>,
                         rounds: nat -> Round, waits: nat -> bool, jitter: nat)

  /** Terminal errors fail the job; anything else is retried within the cap. */
  ghost predicate SettlesError(s: Settlement, stage: Stage, revision: int, error: Error) {
    if Terminal(stage, error.kind) then s.Fail? && s.revision == revision && s.error == error
    else s.Retry? && s.revision == revision && s.error == error && s.at < s.due <= s.at + RETRY_CAP
  }
}
