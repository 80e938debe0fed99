/** What every step of the lease protocol keeps, and what follows for whole runs. */
module SchedulerSafety {
  import opened Common
  import opened LeaseStore
  import opened SchedulerNode
  import opened SchedulerProtocol

  // ---- The invariant ---------------------------------------------------------

  /** At most one term goroutine lives, the one the loop still tracks. */
  ghost predicate TermsOk(l: Locals) {
    && (l.termDone.Some? ==> l.termDone.value < |l.goroutines|)
    && (forall i | 0 <= i < |l.goroutines| && !l.goroutines[i].exited :: l.termDone == Some(i))
    && (l.leader ==> !l.unconfirmedClaim && l.termDone.Some? && l.goroutines[l.termDone.value].fence == l.fence)
    && (l.unconfirmedClaim ==> Exited(l))
  }

  ghost predicate CallOk(id: NodeId, n: Node)
    requires n.pc.Calling?
  {
    var l := n.locals;
    var expires := n.now + n.ttl;
    match n.pc.site
    case LeaderRenewal => l.leader && n.pc.request == Renew(id, l.fence, n.now, expires)
    case Confirmation =>
      !l.leader && l.termDone.None? && l.unconfirmedClaim && n.pc.request == Renew(id, l.fence, n.now, expires)
    case Acquisition => !l.leader && l.termDone.None? && !l.unconfirmedClaim && n.pc.request == Claim(id, n.now, expires)
    case Releasing => !l.leader && Exited(l) && n.pc.request == Release(id, l.fence)
  }

  ghost predicate NodeOk(id: NodeId, n: Node) {
    && TermsOk(n.locals)
    && (n.locals.leader ==> n.locals.expiresAt <= n.now + n.ttl)
    && (n.pc.Calling? ==> CallOk(id, n))
    && (n.pc.Joining? || n.pc.Stopped? ==> !n.locals.leader)
  }

  /** Before `expires`, the row itself records the holder until at least then. */
  ghost predicate Authority(s: State, id: NodeId, fence: nat, expires: nat) {
    s.clock < expires ==> HeldBy(s.row, id, fence) && expires <= s.row.value.expires
  }

  predicate Confirmed(n: Node) {
    n.pc.Calling? && n.pc.progress.Answered? && n.pc.progress.held
  }

  /** The store confirmed the lease to this node, and hearing of it will make or keep it the leader. */
  predicate Promised(n: Node) {
    Confirmed(n) && !n.pc.request.Release? && (n.pc.site.LeaderRenewal? || !n.stopping)
  }

  /** What a node leads on, now or once it hears of it, is in the row. */
  ghost predicate Backed(s: State, id: NodeId, n: Node) {
    && (n.locals.leader ==> Authority(s, id, n.locals.fence, n.locals.expiresAt))
    && (Promised(n) ==> Authority(s, id, n.pc.progress.fence, n.now + n.ttl))
  }

  /** Every fence a term runs under, or may start under, was granted to the node. */
  ghost predicate Granted(log: seq<Event>, id: NodeId, n: Node) {
    && (Confirmed(n) && !n.pc.request.Release? ==>
          && Claimed(id, n.pc.progress.fence) in log
          && (if n.pc.request.Renew? then n.pc.progress.fence == n.pc.request.fence else n.pc.progress.fence != 0))
    && (forall g | g in n.locals.goroutines :: Claimed(id, g.fence) in log)
  }

  /** A caller inside a locked statement waits for the transaction that holds the row. */
  ghost predicate Waits(txn: Option<Txn>, n: Node) {
    n.pc.Calling? && n.pc.progress.Locked? ==>
      && txn.Some? && txn.value.request == n.pc.request
      && txn.value.commitSent == n.pc.progress.acked && txn.value.after.fence == n.pc.progress.fence
  }

  ghost predicate AuthorityOk(s: State, id: NodeId)
    requires id in s.nodes
  {
    var n := s.nodes[id];
    n.now <= s.clock && Backed(s, id, n) && Granted(s.log, id, n) && Waits(s.txn, n)
  }

  /** Whoever holds the row lock can do no harm by committing, now or later. */
  ghost predicate TxnOk(s: State) {
    s.txn.Some? ==>
      var t := s.txn.value;
      && t.request.owner in s.nodes
      && (if t.request.Claim? then (s.row.Some? ==> s.row.value.expires <= t.request.now <= s.clock)
          else HeldBy(s.row, t.request.owner, t.request.fence))
      && t.after == After(s.row, t.request)
      && (!t.request.Write? ==>
            var n := s.nodes[t.request.owner];
            && !Confirmed(n)
            && (n.locals.leader && t.request.Renew? && n.locals.fence == t.request.fence ==> n.locals.expiresAt <= t.request.expires)
            && (t.request.Release? ==>
                  && (n.locals.leader ==> n.locals.fence != t.request.fence)
                  && (forall g | g in n.locals.goroutines && g.fence == t.request.fence :: g.exited)))
  }

  ghost predicate LogOk(log: seq<Event>, row: Option<Row>) {
    && (row.None? ==> log == [])
    && (row.Some? ==> Claimed(row.value.owner, row.value.fence) in log)
    && (forall e | e in log :: e.fence <= row.value.fence)
    && Ordered(log)
  }

  /** Fences never go back, each claim opens a fence of its own, and only its claimant writes under it. */
  ghost predicate Ordered(log: seq<Event>) {
    && (forall i, j | 0 <= i < j < |log| :: log[i].fence <= log[j].fence)
    && (forall i, j | 0 <= i < j < |log| && log[j].Claimed? :: log[i].fence < log[j].fence)
    && (forall j | 0 <= j < |log| && log[j].Wrote? :: Claimed(log[j].owner, log[j].fence) in log[..j])
  }

  ghost predicate Inv(s: State) {
    && (forall id | id in s.nodes :: NodeOk(id, s.nodes[id]))
    && (forall id | id in s.nodes :: AuthorityOk(s, id))
    && TxnOk(s)
    && LogOk(s.log, s.row)
  }
  
  // ---- Steps of one node ------------------------------------------------------

  /** The node learned nothing new from the store and has only given beliefs up. */
  ghost predicate Retreats(n: Node, n': Node) {
    && (n'.pc.Calling? && (n'.pc.progress.Locked? || Confirmed(n')) ==>
          n'.pc == n.pc && n'.now == n.now && n'.ttl == n.ttl && (n.stopping ==> n'.stopping))
    && (n'.locals.leader ==> n.locals.leader && n'.locals.fence == n.locals.fence && n'.locals.expiresAt == n.locals.expiresAt)
    && |n'.locals.goroutines| <= |n.locals.goroutines|
    && (forall i | 0 <= i < |n'.locals.goroutines| :: Outlived(n.locals.goroutines[i], n'.locals.goroutines[i]))
  }

  ghost predicate Outlived(g: Goroutine, g': Goroutine) {
    g'.fence == g.fence && (g.exited ==> g'.exited)
  }

  /** The node leads under exactly the fence and deadline the store confirmed. */
  ghost predicate Elected(n: Node, n': Node) {
    && n'.pc.Waiting? && Promised(n)
    && n'.locals.leader && n'.locals.fence == n.pc.progress.fence && n'.locals.expiresAt == n.now + n.ttl
    && n'.now == n.now
    && (n'.locals.goroutines == n.locals.goroutines || n'.locals.goroutines == n.locals.goroutines + [Goroutine(n'.locals.fence, false, false)])
  }

  lemma TickRetreats(id: NodeId, n: Node, now: Option<nat>)
    requires NodeOk(id, n) && n.pc.Waiting? && (now.Some? ==> n.now <= now.value)
    ensures var n' := Tick(id, n, now); NodeOk(id, n') && Retreats(n, n') && n'.now == if now.Some? then now.value else n.now
  {}

  lemma ShutdownRetreats(id: NodeId, n: Node)
    requires NodeOk(id, n)
    ensures n.pc.Waiting? ==> NodeOk(id, Shutdown(id, n)) && Retreats(n, Shutdown(id, n))
    ensures n.pc.Joining? && Exited(n.locals) ==> NodeOk(id, Joined(id, n)) && Retreats(n, Joined(id, n))
    ensures n.pc.Joining? ==> NodeOk(id, n.(pc := Stopped)) && Retreats(n, n.(pc := Stopped))
  {}

  lemma ErrorRetreats(id: NodeId, n: Node, provisional: nat)
    requires NodeOk(id, n) && n.pc.Calling?
    ensures var n' := Resume(id, n, Error(provisional)); NodeOk(id, n') && Retreats(n, n') && n'.now == n.now
  {}

  lemma AnswerElectsOrRetreats(id: NodeId, n: Node)
    requires NodeOk(id, n) && n.pc.Calling? && n.pc.progress.Answered?
    requires Confirmed(n) && n.pc.request.Renew? ==> n.pc.progress.fence == n.pc.request.fence
    requires Confirmed(n) && n.pc.request.Claim? ==> n.pc.progress.fence != 0
    ensures var n' := Resume(id, n, Answer(n.pc.progress.held, n.pc.progress.fence));
            NodeOk(id, n') && n'.now == n.now && (Elected(n, n') || Retreats(n, n'))
  {}

  lemma RetreatKeepsNode(s: State, id: NodeId, n: Node, n': Node)
    requires Retreats(n, n') && Backed(s, id, n) && Granted(s.log, id, n) && Waits(s.txn, n)
    ensures Backed(s, id, n') && Granted(s.log, id, n') && Waits(s.txn, n')
  {
    forall g | g in n'.locals.goroutines ensures Claimed(id, g.fence) in s.log {
      var i :| 0 <= i < |n'.locals.goroutines| && n'.locals.goroutines[i] == g;
      assert Outlived(n.locals.goroutines[i], g) && n.locals.goroutines[i] in n.locals.goroutines;
    }
  }

  lemma RetreatKeepsTxn(s: State, id: NodeId, n': Node)
    requires TxnOk(s) && id in s.nodes && Retreats(s.nodes[id], n')
    ensures TxnOk(Put(s, id, n'))
  {
    var n := s.nodes[id];
    forall g | g in n'.locals.goroutines ensures exists h | h in n.locals.goroutines :: Outlived(h, g) {
      var i :| 0 <= i < |n'.locals.goroutines| && n'.locals.goroutines[i] == g;
      assert Outlived(n.locals.goroutines[i], g) && n.locals.goroutines[i] in n.locals.goroutines;
    }
  }

  /** A node's own step: the others, the row and the log are as they were. */
  lemma NodeStepKeepsInv(s: State, id: NodeId, n': Node)
    requires Inv(s) && id in s.nodes && NodeOk(id, n') && n'.now <= s.clock && TxnOk(Put(s, id, n'))
    requires Backed(s, id, n') && Granted(s.log, id, n') && Waits(s.txn, n')
    ensures Inv(Put(s, id, n'))
  {
    var s' := Put(s, id, n');
    forall other | other in s'.nodes ensures NodeOk(other, s'.nodes[other]) && AuthorityOk(s', other) {
      if other != id { assert NodeOk(other, s.nodes[other]) && AuthorityOk(s, other); }
    }
  }

  lemma RetreatKeepsInv(s: State, id: NodeId, n': Node)
    requires Inv(s) && id in s.nodes && NodeOk(id, n') && Retreats(s.nodes[id], n') && n'.now <= s.clock
    ensures Inv(Put(s, id, n'))
  {
    assert AuthorityOk(s, id);
    RetreatKeepsNode(s, id, s.nodes[id], n');
    RetreatKeepsTxn(s, id, n');
    NodeStepKeepsInv(s, id, n');
  }

  lemma ElectionKeepsInv(s: State, id: NodeId, n': Node)
    requires Inv(s) && id in s.nodes && NodeOk(id, n') && Elected(s.nodes[id], n')
    ensures Inv(Put(s, id, n'))
  {
    assert AuthorityOk(s, id);
    NodeStepKeepsInv(s, id, n');
  }

  lemma TickKeepsInv(s: State, id: NodeId, now: Option<nat>)
    requires Inv(s) && Enabled(s, BeginTick(id, now))
    ensures Inv(Do(s, BeginTick(id, now)))
  {
    assert AuthorityOk(s, id);
    TickRetreats(id, s.nodes[id], now);
    RetreatKeepsInv(s, id, Tick(id, s.nodes[id], now));
  }

  lemma FailKeepsInv(s: State, id: NodeId)
    requires Inv(s) && Enabled(s, Fail(id))
    ensures Inv(Do(s, Fail(id)))
  {
    assert AuthorityOk(s, id);
    var provisional := Provisional(s.nodes[id].pc.progress);
    ErrorRetreats(id, s.nodes[id], provisional);
    RetreatKeepsInv(s, id, Resume(id, s.nodes[id], Error(provisional)));
  }

  lemma ShutdownKeepsInv(s: State, a: Step)
    requires Inv(s) && Enabled(s, a) && (a.BeginShutdown? || a.JoinTerm? || a.JoinTimeout?)
    ensures Inv(Do(s, a))
  {
    assert AuthorityOk(s, a.id);
    ShutdownRetreats(a.id, s.nodes[a.id]);
    RetreatKeepsInv(s, a.id, if a.BeginShutdown? then Shutdown(a.id, s.nodes[a.id]) else if a.JoinTerm? then Joined(a.id, s.nodes[a.id]) else s.nodes[a.id].(pc := Stopped));
  }

  lemma RestartKeepsInv(s: State, id: NodeId, ttl: nat)
    requires Inv(s) && Enabled(s, Restart(id, ttl))
    ensures Inv(Do(s, Restart(id, ttl)))
  {
    RetreatKeepsInv(s, id, FreshNode(ttl));
  }

  lemma ExitRetreats(id: NodeId, n: Node, term: nat)
    requires NodeOk(id, n) && term < |n.locals.goroutines|
    ensures var gs := n.locals.goroutines;
            var n' := n.(locals := n.locals.(goroutines := gs[term := gs[term].(exited := true)]));
            NodeOk(id, n') && Retreats(n, n')
  {}

  lemma QuietKeepsInv(s: State, a: Step)
    requires Inv(s) && Enabled(s, a) && (a.ExitTerm? || a.RequestStop? || a.Miss?)
    ensures Inv(Do(s, a))
  {
    var n := s.nodes[a.id];
    assert AuthorityOk(s, a.id);
    if a.ExitTerm? { ExitRetreats(a.id, n, a.term); }
    RetreatKeepsInv(s, a.id, Do(s, a).nodes[a.id]);
  }

  lemma DeliverKeepsInv(s: State, id: NodeId)
    requires Inv(s) && Enabled(s, Deliver(id))
    ensures Inv(Do(s, Deliver(id)))
  {
    var n := s.nodes[id];
    assert AuthorityOk(s, id);
    AnswerElectsOrRetreats(id, n);
    var n' := Resume(id, n, Answer(n.pc.progress.held, n.pc.progress.fence));
    if Elected(n, n') { ElectionKeepsInv(s, id, n'); } else { RetreatKeepsInv(s, id, n'); }
  }

  // ---- Steps of the store ------------------------------------------------------

  /** A step of the store: it may move the clock, the row and the lock, and what each node sees of it must fit. */
  lemma StoreStepKeepsInv(s: State, s': State)
    requires Inv(s) && s'.nodes.Keys == s.nodes.Keys && TxnOk(s') && LogOk(s'.log, s'.row)
    requires forall id | id in s'.nodes :: NodeOk(id, s'.nodes[id]) && AuthorityOk(s', id)
    ensures Inv(s')
  {}

  lemma ClockKeepsInv(s: State, a: Step)
    requires Inv(s) && Enabled(s, a) && (a.Advance? || a.Rollback? || a.GuardWrite?)
    ensures Inv(Do(s, a))
  {
    var s' := Do(s, a);
    forall other | other in s'.nodes ensures AuthorityOk(s', other) {
      assert AuthorityOk(s, other);
    }
  }

  /** Only the owner of the row lock can be waiting inside a locked statement. */
  lemma LockOwner(s: State, id: NodeId)
    requires Inv(s) && Awaited(s, id)
    ensures s.txn.Some? && s.txn.value.request.owner == id && s.txn.value.request == s.nodes[id].pc.request
  {
    assert NodeOk(id, s.nodes[id]) && AuthorityOk(s, id);
  }

  lemma AckKeepsTxn(s: State, id: NodeId)
    requires Inv(s) && Enabled(s, Ack(id))
    ensures TxnOk(Do(s, Ack(id)))
  {
    LockOwner(s, id);
  }

  lemma AckKeepsNode(s: State, id: NodeId, other: NodeId)
    requires Inv(s) && Enabled(s, Ack(id)) && other in s.nodes
    ensures NodeOk(other, Do(s, Ack(id)).nodes[other]) && AuthorityOk(Do(s, Ack(id)), other)
  {
    LockOwner(s, id);
    assert NodeOk(other, s.nodes[other]) && AuthorityOk(s, other);
    if other != id && Awaited(s, other) { LockOwner(s, other); }
  }

  lemma AckKeepsInv(s: State, id: NodeId)
    requires Inv(s) && Enabled(s, Ack(id))
    ensures Inv(Do(s, Ack(id)))
  {
    AckKeepsTxn(s, id);
    forall other | other in s.nodes ensures NodeOk(other, Do(s, Ack(id)).nodes[other]) && AuthorityOk(Do(s, Ack(id)), other) {
      AckKeepsNode(s, id, other);
    }
    StoreStepKeepsInv(s, Do(s, Ack(id)));
  }

  lemma ExecuteKeepsNode(s: State, id: NodeId, other: NodeId)
    requires Inv(s) && Enabled(s, Execute(id)) && other in s.nodes
    ensures NodeOk(other, Do(s, Execute(id)).nodes[other]) && AuthorityOk(Do(s, Execute(id)), other)
  {
    assert NodeOk(other, s.nodes[other]) && AuthorityOk(s, other);
  }

  lemma ExecuteKeepsTxn(s: State, id: NodeId)
    requires Inv(s) && Enabled(s, Execute(id))
    ensures TxnOk(Do(s, Execute(id)))
  {
    assert NodeOk(id, s.nodes[id]) && AuthorityOk(s, id);
  }

  lemma ExecuteKeepsInv(s: State, id: NodeId)
    requires Inv(s) && Enabled(s, Execute(id))
    ensures Inv(Do(s, Execute(id)))
  {
    ExecuteKeepsTxn(s, id);
    forall other | other in s.nodes ensures NodeOk(other, Do(s, Execute(id)).nodes[other]) && AuthorityOk(Do(s, Execute(id)), other) {
      ExecuteKeepsNode(s, id, other);
    }
    StoreStepKeepsInv(s, Do(s, Execute(id)));
  }

  lemma OrderedGrows(log: seq<Event>, e: Event)
    requires Ordered(log) && (forall i | 0 <= i < |log| :: log[i].fence <= e.fence)
    requires e.Claimed? ==> forall i | 0 <= i < |log| :: log[i].fence < e.fence
    requires e.Wrote? ==> Claimed(e.owner, e.fence) in log
    ensures Ordered(log + [e])
  {
    var log' := log + [e];
    forall j | 0 <= j < |log'| && log'[j].Wrote? ensures Claimed(log'[j].owner, log'[j].fence) in log'[..j] {
      assert log'[..j] == if j < |log| then log[..j] else log;
    }
  }

  lemma LogGrows(log: seq<Event>, row: Option<Row>, e: Event, row': Row)
    requires LogOk(log, row) && (row.Some? ==> row.value.fence <= e.fence) && e.fence == row'.fence && e.owner == row'.owner
    requires e.Claimed? ==> row.Some? ==> row.value.fence < e.fence
    requires e.Wrote? ==> row == Some(row')
    ensures LogOk(log + [e], Some(row'))
  {
    assert forall i | 0 <= i < |log| :: log[i] in log;
    OrderedGrows(log, e);
    assert (log + [e])[|log|] == e;
    if e.Wrote? {
      var i :| 0 <= i < |log| && log[i] == Claimed(e.owner, e.fence);
      assert (log + [e])[i] == log[i];
    }
  }

  lemma CommitKeepsLog(s: State)
    requires Inv(s) && Enabled(s, Commit)
    ensures LogOk(Do(s, Commit).log, Do(s, Commit).row)
  {
    var t := s.txn.value;
    match t.request
    case Claim(owner, _, _) => LogGrows(s.log, s.row, Claimed(owner, t.after.fence), t.after);
    case Write(owner, fence) => LogGrows(s.log, s.row, Wrote(owner, fence), t.after);
    case Renew(_, _, _, _) => assert Do(s, Commit).log == s.log;
    case Release(_, _) => assert Do(s, Commit).log == s.log;
  }

  /** A commit keeps what a node leads on: its own renewal only extends it, nothing else matches while it lasts. */
  lemma CommitKeepsBacked(s: State, id: NodeId, n: Node)
    requires TxnOk(s) && Enabled(s, Commit) && id in s.nodes && n == s.nodes[id] && Backed(s, id, n) && Waits(s.txn, n)
    requires !s.txn.value.request.Write? && s.txn.value.request.owner == id ==> !Awaited(s, id)
    ensures Backed(Do(s, Commit), id, n)
  {}

  /** The caller whose own statement commits leads, if at all, on what the row now says. */
  lemma CommitAnswers(s: State, id: NodeId)
    requires Inv(s) && Enabled(s, Commit) && Awaited(s, id) && s.txn.value.request.owner == id
    ensures AuthorityOk(Do(s, Commit), id) && NodeOk(id, Do(s, Commit).nodes[id])
  {
    LockOwner(s, id);
    assert NodeOk(id, s.nodes[id]) && AuthorityOk(s, id);
    assert s.txn.value.request.Claim? ==> Claimed(id, s.txn.value.after.fence) in Do(s, Commit).log;
  }

  lemma CommitKeepsAuthority(s: State, id: NodeId)
    requires Inv(s) && Enabled(s, Commit) && id in s.nodes
    ensures AuthorityOk(Do(s, Commit), id) && NodeOk(id, Do(s, Commit).nodes[id])
  {
    assert NodeOk(id, s.nodes[id]) && AuthorityOk(s, id);
    if Awaited(s, id) {
      LockOwner(s, id);
      CommitAnswers(s, id);
    } else {
      CommitKeepsBacked(s, id, s.nodes[id]);
    }
  }

  lemma CommitKeepsInv(s: State)
    requires Inv(s) && Enabled(s, Commit)
    ensures Inv(Do(s, Commit))
  {
    var s' := Do(s, Commit);
    CommitKeepsLog(s);
    forall other | other in s'.nodes ensures NodeOk(other, s'.nodes[other]) && AuthorityOk(s', other) {
      CommitKeepsAuthority(s, other);
    }
  }

  lemma StepKeepsInv(s: State, a: Step)
    requires Inv(s) && Enabled(s, a)
    ensures Inv(Do(s, a))
  {
    match a
    case BeginTick(id, now) => TickKeepsInv(s, id, now);
    case Execute(id) => ExecuteKeepsInv(s, id);
    case Commit => CommitKeepsInv(s);
    case Deliver(id) => DeliverKeepsInv(s, id);
    case Fail(id) => FailKeepsInv(s, id);
    case ExitTerm(_, _) => QuietKeepsInv(s, a);
    case Restart(id, ttl) => RestartKeepsInv(s, id, ttl);
    case BeginShutdown(_) => ShutdownKeepsInv(s, a);
    case JoinTerm(_) => ShutdownKeepsInv(s, a);
    case JoinTimeout(_) => ShutdownKeepsInv(s, a);
    case RequestStop(_) => QuietKeepsInv(s, a);
    case Miss(_) => QuietKeepsInv(s, a);
    case Ack(id) => AckKeepsInv(s, id);
    case Advance(_) => ClockKeepsInv(s, a);
    case Rollback => ClockKeepsInv(s, a);
    case GuardWrite(_, _) => ClockKeepsInv(s, a);
  }

  // ---- Whole runs ----------------------------------------------------------------

  lemma {:induction false} RunKeepsInv(s: State, run: seq<Step>)
    requires Inv(s) && Feasible(s, run)
    ensures Inv(Reached(s, run))
    decreases |run|
  {
    if run != [] {
      StepKeepsInv(s, run[0]);
      RunKeepsInv(Do(s, run[0]), run[1..]);
    }
  }

  ghost predicate LiveLeader(s: State, id: NodeId) {
    id in s.nodes && s.nodes[id].locals.leader && s.clock < s.nodes[id].locals.expiresAt
  }

  lemma LeadersAgree(s: State, a: NodeId, b: NodeId)
    requires Inv(s) && LiveLeader(s, a) && LiveLeader(s, b)
    ensures a == b
  {
    assert AuthorityOk(s, a) && AuthorityOk(s, b);
  }

  /** Mutual exclusion: a leader inside its deadline is the holder the row names, so there is one. */
  lemma OneLiveLeader(s: State, run: seq<Step>, a: NodeId, b: NodeId)
    requires Init(s) && Feasible(s, run)
    requires LiveLeader(Reached(s, run), a)
    ensures var s' := Reached(s, run);
            && HeldBy(s'.row, a, s'.nodes[a].locals.fence)
            && s'.nodes[a].locals.expiresAt <= s'.row.value.expires
            && (LiveLeader(s', b) ==> a == b)
  {
    RunKeepsInv(s, run);
    var s' := Reached(s, run);
    assert AuthorityOk(s', a);
    if LiveLeader(s', b) { LeadersAgree(s', a, b); }
  }

  /** Fencing: commits never go back to an older term, and a term's writes follow its own claim. */
  lemma WritesAreFenced(s: State, run: seq<Step>, i: nat, j: nat)
    requires Init(s) && Feasible(s, run)
    requires i < j < |Reached(s, run).log|
    ensures var log := Reached(s, run).log;
            && log[i].fence <= log[j].fence
            && (log[j].Claimed? ==> log[i].fence < log[j].fence)
            && (log[j].Wrote? ==> Claimed(log[j].owner, log[j].fence) in log[..j])
            && (log[i].Wrote? && log[j].Wrote? && log[i].fence == log[j].fence ==> log[i].owner == log[j].owner)
  {
    RunKeepsInv(s, run);
    var log := Reached(s, run).log;
    if log[i].Wrote? && log[j].Wrote? && log[i].fence == log[j].fence {
      var p :| 0 <= p < i && log[p] == Claimed(log[i].owner, log[i].fence);
      var q :| 0 <= q < j && log[q] == Claimed(log[j].owner, log[j].fence);
    }
  }

  /** No two terms of a node run together, and every term runs under a fence the store granted to it. */
  lemma TermsNeverOverlap(s: State, run: seq<Step>, id: NodeId, i: nat, j: nat)
    requires Init(s) && Feasible(s, run)
    requires LiveTerm(Reached(s, run), id, i)
    ensures var s' := Reached(s, run);
            var l := s'.nodes[id].locals;
            && (LiveTerm(s', id, j) ==> i == j)
            && Claimed(id, l.goroutines[i].fence) in s'.log
            && !l.unconfirmedClaim
            && (l.leader ==> l.goroutines[i].fence == l.fence)
  {
    RunKeepsInv(s, run);
    var s' := Reached(s, run);
    assert NodeOk(id, s'.nodes[id]) && AuthorityOk(s', id);
    assert s'.nodes[id].locals.goroutines[i] in s'.nodes[id].locals.goroutines;
  }

  /** While a term lives, no release of its fence is asked for or in doubt: the row is left to expire. */
  lemma ReleaseFollowsExit(s: State, run: seq<Step>, id: NodeId, term: nat)
    requires Init(s) && Feasible(s, run)
    requires LiveTerm(Reached(s, run), id, term)
    ensures var s' := Reached(s, run);
            var n := s'.nodes[id];
            && !(n.pc.Calling? && n.pc.request.Release?)
            && !(s'.txn.Some? && s'.txn.value.request == Release(id, n.locals.goroutines[term].fence))
  {
    RunKeepsInv(s, run);
    var s' := Reached(s, run);
    assert NodeOk(id, s'.nodes[id]);
    assert s'.nodes[id].locals.goroutines[term] in s'.nodes[id].locals.goroutines;
  }
}
