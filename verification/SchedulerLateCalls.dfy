/**
 Why the row lock carries the safety argument. Suppose an abandoned call could
 still reach the row after its caller gave up on it, instead of dying with its
 connection. A late claim would do no harm; a late renewal or release splits
 leadership in exactly the states characterised here, and both are reachable.
 */
module SchedulerLateCalls {
  import opened Common
  import opened LeaseStore
  import opened SchedulerNode
  import opened SchedulerProtocol
  import opened SchedulerSafety

  /** The statement of an abandoned call takes effect on its own, long after its caller left. */
  function LateEffect(s: State, r: Request): State
    requires r.Claim? || s.row.Some?
  {
    s.(row := Some(After(s.row, r)), log := s.log + Committed(r, After(s.row, r)))
  }

  /** Some way to go on leads to two live leaders. */
  ghost predicate CanSplit(s: State) {
    exists run, a, b :: SplitsBy(s, run, a, b)
  }

  ghost predicate SplitsBy(s: State, run: seq<Step>, a: NodeId, b: NodeId) {
    a != b && Feasible(s, run) && LiveLeader(Reached(s, run), a) && LiveLeader(Reached(s, run), b)
  }

  /** The node leads under `fence` until `expires`, or will once it hears what the store already answered. */
  ghost predicate LeadsUntil(s: State, id: NodeId, fence: nat, expires: nat) {
    id in s.nodes && var n := s.nodes[id];
    || (n.locals.leader && n.locals.fence == fence && n.locals.expiresAt == expires)
    || (Promised(n) && n.pc.progress.fence == fence && n.now + n.ttl == expires)
  }

  // ---- Runs that cannot split ------------------------------------------------------

  lemma InvNeverSplits(s: State)
    requires Inv(s)
    ensures !CanSplit(s)
  {
    forall run, a, b ensures !SplitsBy(s, run, a, b) {
      if Feasible(s, run) && LiveLeader(Reached(s, run), a) && LiveLeader(Reached(s, run), b) {
        RunKeepsInv(s, run);
        LeadersAgree(Reached(s, run), a, b);
      }
    }
  }

  lemma {:induction false} RunKeepsNodes(s: State, run: seq<Step>)
    requires Feasible(s, run)
    ensures Reached(s, run).nodes.Keys == s.nodes.Keys
    decreases |run|
  {
    if run != [] {
      assert Do(s, run[0]).nodes.Keys == s.nodes.Keys;
      RunKeepsNodes(Do(s, run[0]), run[1..]);
    }
  }

  /** With one node there is nobody to split with. */
  lemma LoneNodeNeverSplits(s: State, id: NodeId)
    requires forall b | b in s.nodes :: b == id
    ensures !CanSplit(s)
  {
    forall run, a, b ensures !SplitsBy(s, run, a, b) {
      if Feasible(s, run) {
        RunKeepsNodes(s, run);
        assert a in Reached(s, run).nodes ==> a in s.nodes;
        assert b in Reached(s, run).nodes ==> b in s.nodes;
      }
    }
  }

  // ---- A run that splits --------------------------------------------------------------

  lemma Then(s: State, a: Step, rest: seq<Step>)
    requires Enabled(s, a) && Feasible(Do(s, a), rest)
    ensures Feasible(s, [a] + rest) && Reached(s, [a] + rest) == Reached(Do(s, a), rest)
  {
    assert ([a] + rest)[1..] == rest;
  }

  ghost function Later(a: nat, b: nat): nat {
    if a <= b then b else a
  }

  ghost function Claiming(b: NodeId, t: nat): Node {
    Node(1, false, t, Fresh, Calling(Acquisition, Claim(b, t, t + 1), Sent))
  }

  /** A node that starts over once the row has run out asks for it. */
  lemma ClaimIsAsked(s: State, b: NodeId, wait: nat)
    requires b in s.nodes
    ensures var t := s.clock + wait;
            var s' := Put(s, b, Claiming(b, t)).(clock := t);
            var run := [Restart(b, 1), Advance(wait), BeginTick(b, Some(t))];
            Feasible(s, run) && Reached(s, run) == s'
  {
    var t := s.clock + wait;
    var s1 := Do(s, Restart(b, 1));
    var s2 := Do(s1, Advance(wait));
    assert s2.nodes[b] == FreshNode(1);
    assert Tick(b, FreshNode(1), Some(t)) == Claiming(b, t);
    var s3 := Do(s2, BeginTick(b, Some(t)));
    assert s3 == Put(s, b, Claiming(b, t)).(clock := t);
    Then(s2, BeginTick(b, Some(t)), []);
    Then(s1, Advance(wait), [BeginTick(b, Some(t))]);
    Then(s, Restart(b, 1), [Advance(wait), BeginTick(b, Some(t))]);
  }

  /** And gets it, while whoever leads elsewhere still does. */
  lemma ClaimIsGranted(s: State, b: NodeId, t: nat)
    requires b in s.nodes && s.nodes[b] == Claiming(b, t) && s.clock == t && s.txn.None? && s.row.Some? && s.row.value.expires <= t
    ensures var run := [Execute(b), Ack(b), Commit, Deliver(b)];
            && Feasible(s, run) && LiveLeader(Reached(s, run), b)
            && Reached(s, run).clock == t
            && forall a | a in s.nodes && a != b :: a in Reached(s, run).nodes && Reached(s, run).nodes[a] == s.nodes[a]
  {
    var after := After(s.row, Claim(b, t, t + 1));
    var s1 := Do(s, Execute(b));
    assert s1.nodes[b] == Claiming(b, t).(pc := Calling(Acquisition, Claim(b, t, t + 1), Locked(false, after.fence)));
    var s2 := Do(s1, Ack(b));
    assert s2.nodes[b] == Claiming(b, t).(pc := Calling(Acquisition, Claim(b, t, t + 1), Locked(true, after.fence)));
    var s3 := Do(s2, Commit);
    assert s3.nodes[b] == Claiming(b, t).(pc := Calling(Acquisition, Claim(b, t, t + 1), Answered(true, after.fence)));
    Then(s3, Deliver(b), []);
    Then(s2, Commit, [Deliver(b)]);
    Then(s1, Ack(b), [Commit, Deliver(b)]);
    Then(s, Execute(b), [Ack(b), Commit, Deliver(b)]);
  }

  lemma {:induction false} Concat(s: State, p: seq<Step>, q: seq<Step>)
    requires Feasible(s, p) && Feasible(Reached(s, p), q)
    ensures Feasible(s, p + q) && Reached(s, p + q) == Reached(Reached(s, p), q)
    decreases |p|
  {
    if p == [] {
      assert p + q == q;
    } else {
      Concat(Do(s, p[0]), p[1..], q);
      assert (p + q)[0] == p[0] && (p + q)[1..] == p[1..] + q;
    }
  }

  /** A leader whose row runs out before its own deadline is overtaken by any other node. */
  lemma LeaderIsOvertaken(s: State, a: NodeId, b: NodeId)
    requires a in s.nodes && b in s.nodes && a != b && s.txn.None? && s.row.Some?
    requires LiveLeader(s, a) && s.row.value.expires < s.nodes[a].locals.expiresAt
    ensures CanSplit(s)
  {
    var t := Later(s.clock, s.row.value.expires);
    var wait := t - s.clock;
    var ask, get := [Restart(b, 1), Advance(wait), BeginTick(b, Some(t))], [Execute(b), Ack(b), Commit, Deliver(b)];
    ClaimIsAsked(s, b, wait);
    var s' := Reached(s, ask);
    ClaimIsGranted(s', b, t);
    Concat(s, ask, get);
    assert s'.nodes[a] == s.nodes[a];
    assert SplitsBy(s, ask + get, a, b);
  }

  /** What a promised node becomes when it hears of it. */
  lemma PromiseIsKept(s: State, a: NodeId)
    requires Inv(s) && a in s.nodes && Promised(s.nodes[a])
    ensures Enabled(s, Deliver(a))
    ensures var n, s' := s.nodes[a], Do(s, Deliver(a));
            && s'.clock == s.clock && s'.row == s.row && s'.txn == s.txn && s'.nodes.Keys == s.nodes.Keys
            && s'.nodes[a].locals.leader && s'.nodes[a].locals.expiresAt == n.now + n.ttl
  {
    assert NodeOk(a, s.nodes[a]) && AuthorityOk(s, a);
  }

  lemma StepBefore(s: State, a: Step)
    requires Enabled(s, a) && CanSplit(Do(s, a))
    ensures CanSplit(s)
  {
    var run, x, y :| SplitsBy(Do(s, a), run, x, y);
    Then(s, a, run);
    assert SplitsBy(s, [a] + run, x, y);
  }

  // ---- Late calls -------------------------------------------------------------------------

  /** Somebody else could take over before the owner of a late call stops leading under its fence. */
  ghost predicate Exposed(s: State, r: Request)
    requires !r.Claim? && s.row.Some?
  {
    && (exists b | b in s.nodes :: b != r.owner)
    && exists expires: nat :: LeadsUntil(s, r.owner, r.fence, expires) && s.clock < expires && After(s.row, r).expires < expires
  }

  /** The delivery of an answer is the same before and after a late effect. */
  lemma DeliverLate(s: State, r: Request, a: NodeId)
    requires (r.Renew? || r.Release?) && s.row.Some? && Enabled(s, Deliver(a))
    ensures Enabled(LateEffect(s, r), Deliver(a)) && Do(LateEffect(s, r), Deliver(a)) == LateEffect(Do(s, Deliver(a)), r)
  {
    assert s.log + [] == s.log;
  }

  lemma ExposedSplits(s: State, r: Request)
    requires Inv(s) && s.txn.None? && (r.Renew? || r.Release?) && Matches(s.row, r, s.clock) && Exposed(s, r)
    ensures CanSplit(LateEffect(s, r))
  {
    var a := r.owner;
    var b :| b in s.nodes && b != a;
    var expires: nat :| LeadsUntil(s, a, r.fence, expires) && s.clock < expires && After(s.row, r).expires < expires;
    var late := LateEffect(s, r);
    if s.nodes[a].locals.leader && s.nodes[a].locals.fence == r.fence && s.nodes[a].locals.expiresAt == expires {
      LeaderIsOvertaken(late, a, b);
    } else {
      PromiseIsKept(s, a);
      DeliverLate(s, r, a);
      LeaderIsOvertaken(LateEffect(Do(s, Deliver(a)), r), a, b);
      StepBefore(late, Deliver(a));
    }
  }

  lemma UnexposedKeepsInv(s: State, r: Request)
    requires Inv(s) && s.txn.None? && (r.Renew? || r.Release?) && Matches(s.row, r, s.clock)
    requires forall expires: nat | LeadsUntil(s, r.owner, r.fence, expires) && s.clock < expires :: expires <= After(s.row, r).expires
    ensures Inv(LateEffect(s, r))
  {
    var s' := LateEffect(s, r);
    assert s'.log == s.log;
    forall id | id in s'.nodes ensures AuthorityOk(s', id) {
      assert AuthorityOk(s, id);
      var n := s.nodes[id];
      assert n.locals.leader ==> LeadsUntil(s, id, n.locals.fence, n.locals.expiresAt);
      assert Promised(n) ==> LeadsUntil(s, id, n.pc.progress.fence, n.now + n.ttl);
    }
  }

  /** A claim matches only a row that ran out, and nobody leads past that. */
  lemma LateClaimKeepsInv(s: State, r: Request)
    requires Inv(s) && s.txn.None? && r.Claim? && Matches(s.row, r, s.clock) && r.now <= s.clock
    ensures Inv(LateEffect(s, r))
  {
    var s' := LateEffect(s, r);
    LogGrows(s.log, s.row, Claimed(r.owner, After(s.row, r).fence), After(s.row, r));
    forall id | id in s'.nodes ensures AuthorityOk(s', id) { assert AuthorityOk(s, id); }
  }

  /**
   A lease statement that takes effect late opens the way to two live leaders
   exactly when it is a renewal or a release, another node exists, and its owner
   leads under that fence, or will on hearing the store's answer, past what the
   statement leaves in the row. A late claim never does.
   */
  lemma LateCallSplitsExactlyWhenExposed(s: State, r: Request)
    requires Inv(s) && s.txn.None? && !r.Write? && Matches(s.row, r, s.clock) && (r.Claim? ==> r.now <= s.clock)
    ensures CanSplit(LateEffect(s, r)) <==> !r.Claim? && Exposed(s, r)
  {
    if r.Claim? {
      LateClaimKeepsInv(s, r);
      InvNeverSplits(LateEffect(s, r));
    } else if Exposed(s, r) {
      ExposedSplits(s, r);
    } else if forall b | b in s.nodes :: b == r.owner {
      LoneNodeNeverSplits(LateEffect(s, r), r.owner);
    } else {
      UnexposedKeepsInv(s, r);
      InvNeverSplits(LateEffect(s, r));
    }
  }

  // ---- Both are reachable -----------------------------------------------------------------------

  const A: NodeId := 1
  const B: NodeId := 2

  const TwoNodes := State(0, None, None, map[A := FreshNode(30), B := FreshNode(30)], [])

  /** Node a claims, and may lose the answer. */
  const Asking: seq<Step> := [BeginTick(A, Some(0)), Execute(A), Ack(A)]
  const Losing: seq<Step> := [Fail(A)]

  ghost const Acquired := Node(30, false, 0, Fresh, Calling(Acquisition, Claim(A, 0, 30), Locked(true, 1)))

  ghost const Asked := State(0, None, Some(Txn(Claim(A, 0, 30), Row(A, 1, 30), true)), map[A := Acquired, B := FreshNode(30)], [])

  lemma AskingRun()
    ensures Feasible(TwoNodes, Asking) && Reached(TwoNodes, Asking) == Asked
  {
    var s1 := Do(TwoNodes, BeginTick(A, Some(0)));
    assert s1.nodes[A] == Node(30, false, 0, Fresh, Calling(Acquisition, Claim(A, 0, 30), Sent));
    var s2 := Do(s1, Execute(A));
    assert s2.nodes[A] == Node(30, false, 0, Fresh, Calling(Acquisition, Claim(A, 0, 30), Locked(false, 1)));
    assert Do(s2, Ack(A)) == Asked;
    Then(s2, Ack(A), []);
    Then(s1, Execute(A), [Ack(A)]);
    Then(TwoNodes, BeginTick(A, Some(0)), [Execute(A), Ack(A)]);
    assert Asking == [Asking[0]] + Asking[1..];
  }

  ghost const Lost := State(0, None, Some(Txn(Claim(A, 0, 30), Row(A, 1, 30), true)),
    map[A := Node(30, false, 0, Fresh.(fence := 1, unconfirmedClaim := true), Waiting), B := FreshNode(30)], [])

  lemma LosingRun()
    ensures Feasible(Asked, Losing) && Reached(Asked, Losing) == Lost
  {
    assert Do(Asked, Fail(A)) == Lost;
    Then(Asked, Fail(A), []);
  }

  ghost function Led(fence: nat, expires: nat): Locals {
    Locals(true, fence, false, expires, Some(0), Some(0), [Goroutine(fence, false, false)])
  }

  // ---- A late renewal -----------------------------------------------------------------------------

  /** The claim whose answer is lost commits; a tries to confirm it at 10, and gives up on that. */
  const Doubting: seq<Step> := [Commit, Advance(10), BeginTick(A, Some(10))]
  const LateRenewal := Renew(A, 1, 10, 40)

  /** The second confirmation, at 20, succeeds: a leads until 50. */
  const Retrying: seq<Step> := [Fail(A), Advance(10), BeginTick(A, Some(20))]
  const Confirming: seq<Step> := [Execute(A), Ack(A), Commit, Deliver(A)]

  ghost function Claimant(unconfirmed: Pc): Node {
    Node(30, false, 10, Fresh.(fence := 1, unconfirmedClaim := true), unconfirmed)
  }

  ghost const Doubted := State(10, Some(Row(A, 1, 30)), None,
    map[A := Claimant(Calling(Confirmation, LateRenewal, Sent)), B := FreshNode(30)], [Claimed(A, 1)])

  ghost const Retried := State(20, Some(Row(A, 1, 30)), None,
    map[A := Claimant(Calling(Confirmation, Renew(A, 1, 20, 50), Sent)).(now := 20), B := FreshNode(30)], [Claimed(A, 1)])

  ghost const Renewed := State(20, Some(Row(A, 1, 50)), None,
    map[A := Node(30, false, 20, Led(1, 50), Waiting), B := FreshNode(30)], [Claimed(A, 1)])

  lemma DoubtingRun()
    ensures Feasible(Lost, Doubting) && Reached(Lost, Doubting) == Doubted
  {
    var s1 := Do(Lost, Commit);
    assert s1.row == Some(Row(A, 1, 30)) && s1.nodes[A] == Lost.nodes[A];
    var s2 := Do(s1, Advance(10));
    assert Do(s2, BeginTick(A, Some(10))) == Doubted;
    Then(s2, BeginTick(A, Some(10)), []);
    Then(s1, Advance(10), [BeginTick(A, Some(10))]);
    Then(Lost, Commit, [Advance(10), BeginTick(A, Some(10))]);
    assert Doubting == [Doubting[0]] + Doubting[1..];
  }

  lemma RetryingRun()
    ensures Feasible(Doubted, Retrying) && Reached(Doubted, Retrying) == Retried
  {
    var s1 := Do(Doubted, Fail(A));
    assert s1.nodes[A] == Claimant(Waiting);
    var s2 := Do(s1, Advance(10));
    assert Do(s2, BeginTick(A, Some(20))) == Retried;
    Then(s2, BeginTick(A, Some(20)), []);
    Then(s1, Advance(10), [BeginTick(A, Some(20))]);
    Then(Doubted, Fail(A), [Advance(10), BeginTick(A, Some(20))]);
    assert Retrying == [Retrying[0]] + Retrying[1..];
  }

  lemma ConfirmingRun()
    ensures Feasible(Retried, Confirming) && Reached(Retried, Confirming) == Renewed
  {
    var s1 := Do(Retried, Execute(A));
    assert s1.nodes[A] == Claimant(Calling(Confirmation, Renew(A, 1, 20, 50), Locked(false, 1))).(now := 20);
    var s2 := Do(s1, Ack(A));
    assert s2.nodes[A] == Claimant(Calling(Confirmation, Renew(A, 1, 20, 50), Locked(true, 1))).(now := 20);
    var s3 := Do(s2, Commit);
    assert s3.nodes[A] == Claimant(Calling(Confirmation, Renew(A, 1, 20, 50), Answered(true, 1))).(now := 20);
    assert s3.log == [Claimed(A, 1)];
    var s4 := Do(s3, Deliver(A));
    assert s4.nodes[A].locals.goroutines == [Goroutine(1, false, false)];
    assert s4 == Renewed;
    Then(s3, Deliver(A), []);
    Then(s2, Commit, [Deliver(A)]);
    Then(s1, Ack(A), [Commit, Deliver(A)]);
    Then(Retried, Execute(A), [Ack(A), Commit, Deliver(A)]);
    assert Confirming == [Confirming[0]] + Confirming[1..];
  }

  lemma RenewedIsReached()
    ensures var run := Asking + Losing + Doubting + Retrying + Confirming;
            Init(TwoNodes) && Feasible(TwoNodes, run) && Reached(TwoNodes, run) == Renewed
  {
    AskingRun();
    LosingRun();
    Concat(TwoNodes, Asking, Losing);
    DoubtingRun();
    Concat(TwoNodes, Asking + Losing, Doubting);
    RetryingRun();
    Concat(TwoNodes, Asking + Losing + Doubting, Retrying);
    ConfirmingRun();
    Concat(TwoNodes, Asking + Losing + Doubting + Retrying, Confirming);
  }

  lemma RenewedIsExposed()
    ensures Matches(Renewed.row, LateRenewal, Renewed.clock) && Exposed(Renewed, LateRenewal)
  {
    assert Renewed.nodes[A] == Node(30, false, 20, Led(1, 50), Waiting);
    assert LeadsUntil(Renewed, A, 1, 50);
    assert B in Renewed.nodes && B != A;
  }

  /** Had the abandoned first confirmation been able to run late, two nodes would lead at once. */
  lemma LateRenewalSplitsLeadership()
    ensures var run := Asking + Losing + Doubting + Retrying + Confirming;
            && Init(TwoNodes) && Feasible(TwoNodes, run) && Reached(TwoNodes, run) == Renewed
            && Doubted.nodes[A].pc == Calling(Confirmation, LateRenewal, Sent) && Retrying[0] == Fail(A)
            && Matches(Renewed.row, LateRenewal, Renewed.clock) && CanSplit(LateEffect(Renewed, LateRenewal))
  {
    RenewedIsReached();
    RunKeepsInv(TwoNodes, Asking + Losing + Doubting + Retrying + Confirming);
    RenewedIsExposed();
    LateCallSplitsExactlyWhenExposed(Renewed, LateRenewal);
  }

  // ---- A late release -----------------------------------------------------------------------------

  /** The claim whose answer is lost rolls back; shutting down, a releases the fence it may hold, and gives up on that. */
  const Leaving: seq<Step> := [Rollback, RequestStop(A), BeginShutdown(A)]
  const LateRelease := Release(A, 1)

  /** Started again, a is granted the very same fence and leads. */
  const Returning: seq<Step> := [Fail(A), Restart(A, 30)]
  const Leading: seq<Step> := [Commit, Deliver(A)]

  ghost const Left := State(0, None, None,
    map[A := Node(30, true, 0, Fresh.(fence := 1, unconfirmedClaim := true), Calling(Releasing, LateRelease, Sent)), B := FreshNode(30)], [])

  ghost const Back := State(0, Some(Row(A, 1, 30)), None, map[A := Node(30, false, 0, Led(1, 30), Waiting), B := FreshNode(30)], [Claimed(A, 1)])

  lemma LeavingRun()
    ensures Feasible(Lost, Leaving) && Reached(Lost, Leaving) == Left
  {
    var s1 := Do(Lost, Rollback);
    var s2 := Do(s1, RequestStop(A));
    assert s2.nodes[A] == Node(30, true, 0, Fresh.(fence := 1, unconfirmedClaim := true), Waiting);
    assert Do(s2, BeginShutdown(A)) == Left;
    Then(s2, BeginShutdown(A), []);
    Then(s1, RequestStop(A), [BeginShutdown(A)]);
    Then(Lost, Rollback, [RequestStop(A), BeginShutdown(A)]);
    assert Leaving == [Leaving[0]] + Leaving[1..];
  }

  lemma ReturningRun()
    ensures Feasible(Left, Returning) && Reached(Left, Returning) == TwoNodes
  {
    var s1 := Do(Left, Fail(A));
    assert Do(s1, Restart(A, 30)) == TwoNodes;
    Then(s1, Restart(A, 30), []);
    Then(Left, Fail(A), [Restart(A, 30)]);
    assert Returning == [Returning[0]] + Returning[1..];
  }

  lemma LeadingRun()
    ensures Feasible(Asked, Leading) && Reached(Asked, Leading) == Back
  {
    var s1 := Do(Asked, Commit);
    assert s1.nodes[A] == Node(30, false, 0, Fresh, Calling(Acquisition, Claim(A, 0, 30), Answered(true, 1)));
    var s2 := Do(s1, Deliver(A));
    assert s2.nodes[A].locals.goroutines == [Goroutine(1, false, false)];
    assert s2 == Back;
    Then(s1, Deliver(A), []);
    Then(Asked, Commit, [Deliver(A)]);
    assert Leading == [Leading[0]] + Leading[1..];
  }

  lemma BackIsReached()
    ensures var run := Asking + Losing + Leaving + Returning + Asking + Leading;
            Init(TwoNodes) && Feasible(TwoNodes, run) && Reached(TwoNodes, run) == Back
  {
    AskingRun();
    LosingRun();
    Concat(TwoNodes, Asking, Losing);
    LeavingRun();
    Concat(TwoNodes, Asking + Losing, Leaving);
    ReturningRun();
    Concat(TwoNodes, Asking + Losing + Leaving, Returning);
    Concat(TwoNodes, Asking + Losing + Leaving + Returning, Asking);
    LeadingRun();
    Concat(TwoNodes, Asking + Losing + Leaving + Returning + Asking, Leading);
  }

  lemma BackIsExposed()
    ensures Matches(Back.row, LateRelease, Back.clock) && Exposed(Back, LateRelease)
  {
    assert Back.nodes[A] == Node(30, false, 0, Led(1, 30), Waiting);
    assert LeadsUntil(Back, A, 1, 30);
    assert B in Back.nodes && B != A;
  }

  /** A release can outlive its term too: the fence of a claim that rolled back is granted once more, and the late release hits it. */
  lemma LateReleaseSplitsLeadership()
    ensures var run := Asking + Losing + Leaving + Returning + Asking + Leading;
            && Init(TwoNodes) && Feasible(TwoNodes, run) && Reached(TwoNodes, run) == Back
            && Left.nodes[A].pc == Calling(Releasing, LateRelease, Sent) && Returning[0] == Fail(A)
            && Matches(Back.row, LateRelease, Back.clock) && CanSplit(LateEffect(Back, LateRelease))
  {
    BackIsReached();
    RunKeepsInv(TwoNodes, Asking + Losing + Leaving + Returning + Asking + Leading);
    BackIsExposed();
    LateCallSplitsExactlyWhenExposed(Back, LateRelease);
  }
}
