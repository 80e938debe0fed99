/**
 The leadership loop of one node as it is written: a heartbeat reads the clock,
 renews, confirms and claims in place. It is proved to be the node's share of
 the lease protocol, answer by answer and request by request.
 */
module SchedulerLoop {
  import opened Common
  import opened LeaseStore
  import opened SchedulerNode
  import opened SchedulerProtocol
  import opened SchedulerSafety

  /**
   What happens around one heartbeat: which terms have exited when it starts and
   which exit while the leader's renewal is under way, what the store answers, and
   in `stop1..3` the cancellation seen at each check.
   */
  datatype Beat = Beat(
    exits: set<nat>, now: Option<nat>, renewing: set<nat>, renewal: Reply, stop1: bool,
    confirmation: Reply, stop2: bool, claim: Reply, stop3: bool)

  /** Answers the store calls of a heartbeat until the node waits again. */
  ghost function Settle(id: NodeId, n: Node, b: Beat): (Node, seq<Request>)
    decreases if !n.pc.Calling? then 0 else if n.pc.site.LeaderRenewal? then 3 else if n.pc.site.Confirmation? then 2 else 1
  {
    if !n.pc.Calling? || n.pc.site.Releasing? then (n, []) else
    var (stop, reply) := match n.pc.site
      case LeaderRenewal => (b.stop1, b.renewal)
      case Confirmation => (b.stop2, b.confirmation)
      case _ => (b.stop3, b.claim);
    var l := if n.pc.site.LeaderRenewal? then ExitTerms(n.locals, b.renewing) else n.locals;
    var (n', rest) := Settle(id, Resume(id, n.(stopping := stop, locals := l), reply), b);
    (n', [n.pc.request] + rest)
  }

  ghost function Heartbeat(id: NodeId, ttl: nat, l: Locals, b: Beat): (Node, seq<Request>) {
    Settle(id, Tick(id, Node(ttl, b.stop1, 0, ExitTerms(l, b.exits), Waiting), b.now), b)
  }

  /** A heartbeat with a readable clock: the leader's renewal, if it still leads, and then the half that acquires. */
  lemma BeatInHalves(id: NodeId, ttl: nat, l: Locals, b: Beat)
    requires b.now.Some?
    ensures var now, lead := b.now.value, AfterClock(ExitTerms(l, b.exits), b.now);
            var acquiring := if lead.leader then AfterRenewal(ExitTerms(lead, b.renewing), b.renewal, now + ttl) else lead;
            var (n, calls) := Settle(id, Proceed(id, Node(ttl, b.stop1, now, acquiring, Waiting)), b);
            Heartbeat(id, ttl, l, b) == (n, if lead.leader then [Renew(id, lead.fence, now, now + ttl)] + calls else calls)
  {
    var n := Tick(id, Node(ttl, b.stop1, 0, ExitTerms(l, b.exits), Waiting), b.now);
    if n.locals.leader && n.pc.Calling? {
      var n' := Resume(id, n.(stopping := b.stop1, locals := ExitTerms(n.locals, b.renewing)), b.renewal);
      assert Settle(id, n, b) == (Settle(id, n', b).0, [n.pc.request] + Settle(id, n', b).1);
    }
  }

  ghost function Heartbeats(id: NodeId, ttl: nat, l: Locals, beats: seq<Beat>): Locals
    decreases |beats|
  {
    if beats == [] then l else Heartbeat(id, ttl, Heartbeats(id, ttl, l, beats[..|beats| - 1]), beats[|beats| - 1]).0.locals
  }

  class LeadershipLoop {
    const nodeId: NodeId
    const ttl: nat
    var leader: bool
    var fence: nat
    var unconfirmedClaim: bool
    var expiresAt: nat
    var termDone: Option<nat>
    var termCancel: Option<nat>
    var goroutines: seq<Goroutine>

    function View(): Locals
      reads this
    {
      Locals(leader, fence, unconfirmedClaim, expiresAt, termDone, termCancel, goroutines)
    }

    constructor (nodeId: NodeId, ttl: nat)
      ensures View() == Fresh && this.nodeId == nodeId && this.ttl == ttl
    {
      this.nodeId, this.ttl := nodeId, ttl;
      leader, fence, unconfirmedClaim, expiresAt := false, 0, false, 0;
      termDone, termCancel, goroutines := None, None, [];
    }

    /** Term goroutines return on their own. */
    method Exit(terms: set<nat>)
      modifies this`goroutines
      ensures View() == ExitTerms(old(View()), terms)
    {
      goroutines := seq(|goroutines|, i requires 0 <= i < |goroutines| reads this => goroutines[i].(exited := goroutines[i].exited || i in terms));
    }

    method Drop()
      modifies this
      ensures View() == DropLeadership(old(View()))
    {
      if termCancel.Some? && termCancel.value < |goroutines| {
        goroutines := goroutines[termCancel.value := goroutines[termCancel.value].(cancelled := true)];
      }
      termCancel := None;
      leader := false;
    }

    method TermDraining() returns (draining: bool)
      modifies this
      ensures View() == PollTerm(old(View())) && draining == termDone.Some?
    {
      if termDone.None? { return false; }
      if termDone.value < |goroutines| && goroutines[termDone.value].exited {
        termDone := None;
        return false;
      }
      return true;
    }

    method Start(expires: nat)
      modifies this
      ensures View() == StartTerm(old(View()), expires)
    {
      unconfirmedClaim := false;
      expiresAt := expires;
      leader := true;
      termCancel := Some(|goroutines|);
      termDone := Some(|goroutines|);
      goroutines := goroutines + [Goroutine(fence, false, false)];
    }

    method Renewed(reply: Reply, expires: nat)
      modifies this
      ensures View() == AfterRenewal(old(View()), reply, expires)
    {
      if reply.Error? {
        Drop();
      } else if !reply.held {
        Drop();
      } else {
        expiresAt := expires;
      }
    }

    method Confirm(reply: Reply, expires: nat, stop: bool)
      modifies this
      ensures View() == AfterConfirmation(old(View()), reply, expires, stop)
    {
      if reply.Error? {
      } else if !reply.held {
        unconfirmedClaim := false;
        fence := 0;
      } else if !stop {
        Start(expires);
      }
    }

    method ClaimAnswered(reply: Reply, expires: nat, stop: bool)
      modifies this
      ensures View() == AfterClaim(old(View()), reply, expires, stop)
    {
      var got := if reply.Error? then reply.provisional else reply.fence;
      var held := reply.Answer? && reply.held;
      if got != 0 && (held || reply.Error?) {
        fence := got;
        unconfirmedClaim := true;
      }
      if held && !stop {
        Start(expires);
      }
    }

    /** The half of a heartbeat that confirms a provisional claim or makes a new one. */
    method Acquire(b: Beat, now: nat) returns (calls: seq<Request>)
      modifies this
      ensures var (n, requests) := Settle(nodeId, Proceed(nodeId, Node(ttl, b.stop1, now, old(View()), Waiting)), b);
              View() == n.locals && calls == requests
    {
      calls := [];
      var expires := now + ttl;
      if b.stop1 || leader { return; }
      ghost var n := Proceed(nodeId, Node(ttl, b.stop1, now, View(), Waiting));
      var draining := TermDraining();
      if draining { return; }
      if unconfirmedClaim {
        calls := [Renew(nodeId, fence, now, expires)];
        ghost var n1 := Resume(nodeId, n.(stopping := b.stop2), b.confirmation);
        assert Settle(nodeId, n, b) == (Settle(nodeId, n1, b).0, calls + Settle(nodeId, n1, b).1);
        n := n1;
        Confirm(b.confirmation, expires, b.stop2);
        assert View() == n.locals;
        if leader || unconfirmedClaim || b.stop2 { return; }
      }
      assert n.pc == Calling(Acquisition, Claim(nodeId, now, expires), Sent);
      ghost var n2 := Resume(nodeId, n.(stopping := b.stop3), b.claim);
      assert Settle(nodeId, n2, b) == (n2, []) && [n.pc.request] + [] == [n.pc.request];
      calls := calls + [Claim(nodeId, now, expires)];
      ClaimAnswered(b.claim, expires, b.stop3);
      assert View() == n2.locals;
    }

    method Beat(b: Beat) returns (calls: seq<Request>)
      modifies this
      ensures var (n, requests) := Heartbeat(nodeId, ttl, old(View()), b);
              View() == n.locals && calls == requests
    {
      calls := [];
      Exit(b.exits);
      if b.now.None? {
        if leader { Drop(); }
        return;
      }
      var now := b.now.value;
      if leader && expiresAt <= now { Drop(); }
      BeatInHalves(nodeId, ttl, old(View()), b);
      if leader {
        calls := [Renew(nodeId, fence, now, now + ttl)];
        Exit(b.renewing);
        Renewed(b.renewal, now + ttl);
      }
      var more := Acquire(b, now);
      calls := calls + more;
    }

    /** Cancels and joins the running term; the lease is given back only when the term is gone. */
    method Stop(exitsInTime: bool) returns (release: Option<Request>)
      requires TermsOk(View())
      modifies this
      ensures View() == DropLeadership(old(View())) && TermsOk(View())
      ensures release.Some? <==> fence != 0 && (Exited(old(View())) || exitsInTime)
      ensures release.Some? ==> release.value == Release(nodeId, fence)
    {
      var done := termDone;
      Drop();
      var joined := done.None?;
      if done.Some? {
        joined := goroutines[done.value].exited || exitsInTime;
      }
      release := if fence != 0 && joined then Some(Release(nodeId, fence)) else None;
    }

    method Run(beats: seq<Beat>)
      modifies this
      ensures View() == Heartbeats(nodeId, ttl, old(View()), beats)
    {
      for i := 0 to |beats|
        invariant View() == Heartbeats(nodeId, ttl, old(View()), beats[..i])
      {
        assert beats[..i + 1][..i] == beats[..i];
        var _ := Beat(beats[i]);
      }
      assert beats[..|beats|] == beats;
    }
  }

  // ---- Re-election on the same node ---------------------------------------------------------------------

  /** The node's last term is over, or over by the time of this heartbeat. */
  predicate TermOver(l: Locals, terms: set<nat>) {
    Exited(ExitTerms(l, terms))
  }

  /** A node that lost its leadership is elected by a granted claim exactly when its last term has exited by then. */
  lemma ReelectedExactlyWhenExited(id: NodeId, ttl: nat, l: Locals, b: Beat)
    requires !l.leader && !l.unconfirmedClaim && b.now.Some? && !b.stop1 && !b.stop3
    requires b.claim.Answer? && b.claim.held && b.claim.fence != 0
    ensures var after := Heartbeat(id, ttl, l, b).0.locals;
            && (after.leader <==> TermOver(l, b.exits))
            && (after.leader ==> after.fence == b.claim.fence && |after.goroutines| == |l.goroutines| + 1 &&
                                 after.goroutines[|l.goroutines|] == Goroutine(b.claim.fence, false, false))
            && (!after.leader ==> |after.goroutines| == |l.goroutines|)
  {
    var n := Tick(id, Node(ttl, b.stop1, 0, ExitTerms(l, b.exits), Waiting), b.now);
    if n.pc.Calling? {
      var n' := Resume(id, n.(stopping := b.stop3), b.claim);
      assert Settle(id, n', b) == (n', []);
      assert Settle(id, n, b).0 == n';
    }
  }

  /** While a term drains no number of heartbeats starts another one. */
  lemma {:induction false} DrainingBlocksElection(id: NodeId, ttl: nat, l: Locals, beats: seq<Beat>)
    requires !l.leader && l.termDone.Some? && l.termDone.value < |l.goroutines|
    requires forall b | b in beats :: l.termDone.value !in b.exits + b.renewing
    requires !l.goroutines[l.termDone.value].exited
    ensures var after := Heartbeats(id, ttl, l, beats);
            && !after.leader && after.termDone == l.termDone && |after.goroutines| == |l.goroutines|
            && !after.goroutines[l.termDone.value].exited
    decreases |beats|
  {
    if beats != [] {
      var front, b := beats[..|beats| - 1], beats[|beats| - 1];
      DrainingBlocksElection(id, ttl, l, front);
      assert b in beats;
      DrainingBeat(id, ttl, Heartbeats(id, ttl, l, front), b);
    }
  }

  lemma DrainingBeat(id: NodeId, ttl: nat, l: Locals, b: Beat)
    requires !l.leader && l.termDone.Some? && l.termDone.value < |l.goroutines|
    requires l.termDone.value !in b.exits && !l.goroutines[l.termDone.value].exited
    ensures Heartbeat(id, ttl, l, b) == (Node(ttl, b.stop1, if b.now.Some? then b.now.value else 0, ExitTerms(l, b.exits), Waiting), [])
  {
    assert PollTerm(ExitTerms(l, b.exits)) == ExitTerms(l, b.exits);
  }
}
