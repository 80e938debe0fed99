/**
 Any number of nodes competing for one lease row. A run interleaves store
 statements, commits, lost replies, process restarts, job writes and the clock
 in any order; the theorems hold in every state of every run.
 */
module SchedulerProtocol {
  import opened Common
  import opened LeaseStore
  import opened SchedulerNode

  datatype Site = LeaderRenewal | Confirmation | Acquisition | Releasing

  /** How far the store got with a call whose caller still waits. */
  datatype Progress = Sent | Locked(acked: bool, fence: nat) | Answered(held: bool, fence: nat)

  datatype Pc = Waiting | Calling(site: Site, request: Request, progress: Progress) | Joining | Stopped

  datatype Node = Node(ttl: nat, stopping: bool, now: nat, locals: Locals, pc: Pc)

  /** The transaction holding the row lock. COMMIT is sent only once the statement was acknowledged. */
  datatype Txn = Txn(request: Request, after: Row, commitSent: bool)

  datatype Event = Claimed(owner: NodeId, fence: nat) | Wrote(owner: NodeId, fence: nat)

  datatype State = State(clock: nat, row: Option<Row>, txn: Option<Txn>, nodes: map<NodeId, Node>, log: seq<Event>)

  datatype Step =
    | Advance(elapsed: nat)
    | BeginTick(id: NodeId, now: Option<nat>)
    | Execute(id: NodeId)
    | Miss(id: NodeId)
    | Ack(id: NodeId)
    | Commit
    | Rollback
    | Deliver(id: NodeId)
    | Fail(id: NodeId)
    | RequestStop(id: NodeId)
    | BeginShutdown(id: NodeId)
    | JoinTerm(id: NodeId)
    | JoinTimeout(id: NodeId)
    | ExitTerm(id: NodeId, term: nat)
    | GuardWrite(id: NodeId, term: nat)
    | Restart(id: NodeId, ttl: nat)

  // ---- One node ----------------------------------------------------------

  function FreshNode(ttl: nat): Node {
    Node(ttl, false, 0, Fresh, Waiting)
  }

  function ClaimCall(id: NodeId, n: Node): Pc {
    Calling(Acquisition, Claim(id, n.now, n.now + n.ttl), Sent)
  }

  function RenewCall(id: NodeId, n: Node, site: Site): Pc {
    Calling(site, Renew(id, n.locals.fence, n.now, n.now + n.ttl), Sent)
  }

  /** The rest of a heartbeat once the leader's renewal is settled. */
  function Proceed(id: NodeId, n: Node): Node {
    if n.stopping || n.locals.leader then n.(pc := Waiting) else
    var n' := n.(locals := PollTerm(n.locals));
    if !MayAcquire(n'.locals, n.stopping) then n'.(pc := Waiting)
    else if n'.locals.unconfirmedClaim then n'.(pc := RenewCall(id, n', Confirmation))
    else n'.(pc := ClaimCall(id, n'))
  }

  function Tick(id: NodeId, n: Node, now: Option<nat>): Node {
    var n' := n.(locals := AfterClock(n.locals, now));
    if now.None? then n'.(pc := Waiting) else
    var n'' := n'.(now := now.value);
    if n''.locals.leader then n''.(pc := RenewCall(id, n'', LeaderRenewal)) else Proceed(id, n'')
  }

  function Resume(id: NodeId, n: Node, r: Reply): Node
    requires n.pc.Calling?
  {
    var expires := n.now + n.ttl;
    match n.pc.site
    case LeaderRenewal => Proceed(id, n.(locals := AfterRenewal(n.locals, r, expires)))
    case Confirmation =>
      var n' := n.(locals := AfterConfirmation(n.locals, r, expires, n.stopping));
      if MayAcquire(n'.locals, n.stopping) && !n'.locals.unconfirmedClaim then n'.(pc := ClaimCall(id, n')) else n'.(pc := Waiting)
    case Acquisition => n.(locals := AfterClaim(n.locals, r, expires, n.stopping), pc := Waiting)
    case Releasing => n.(pc := Stopped)
  }

  /** Only a claim whose statement was acknowledged leaves a provisional fence behind. */
  function Provisional(p: Progress): nat {
    match p
    case Sent => 0
    case Locked(acked, fence) => if acked then fence else 0
    case Answered(_, fence) => fence
  }

  /** Shutdown once the node's own term has exited: release what it may still hold. */
  function Joined(id: NodeId, n: Node): Node {
    if n.locals.fence != 0 then n.(pc := Calling(Releasing, Release(id, n.locals.fence), Sent)) else n.(pc := Stopped)
  }

  function Shutdown(id: NodeId, n: Node): Node {
    var n' := n.(locals := DropLeadership(n.locals));
    if Exited(n'.locals) then Joined(id, n') else n'.(pc := Joining)
  }

  // ---- The whole system ----------------------------------------------------

  predicate InCall(s: State, id: NodeId) {
    id in s.nodes && s.nodes[id].pc.Calling?
  }

  predicate Awaited(s: State, owner: NodeId) {
    InCall(s, owner) && s.nodes[owner].pc.progress.Locked?
  }

  predicate LiveTerm(s: State, id: NodeId, term: nat) {
    id in s.nodes && term < |s.nodes[id].locals.goroutines| && !s.nodes[id].locals.goroutines[term].exited
  }

  predicate Enabled(s: State, a: Step) {
    match a
    case Advance(_) => true
    case BeginTick(id, now) =>
      id in s.nodes && s.nodes[id].pc.Waiting? && (now.Some? ==> s.nodes[id].now <= now.value <= s.clock)
    case Execute(id) => InCall(s, id) && s.nodes[id].pc.progress.Sent? && s.txn.None? && Matches(s.row, s.nodes[id].pc.request, s.clock)
    case Miss(id) => InCall(s, id) && s.nodes[id].pc.progress.Sent? && !Matches(s.row, s.nodes[id].pc.request, s.clock)
    case Ack(id) => Awaited(s, id) && !s.nodes[id].pc.progress.acked && s.txn.Some?
    case Commit => s.txn.Some? && s.txn.value.commitSent
    case Rollback => s.txn.Some? && (s.txn.value.request.Write? || !Awaited(s, s.txn.value.request.owner))
    case Deliver(id) => InCall(s, id) && s.nodes[id].pc.progress.Answered?
    case Fail(id) => InCall(s, id)
    case RequestStop(id) => id in s.nodes
    case BeginShutdown(id) => id in s.nodes && s.nodes[id].pc.Waiting? && s.nodes[id].stopping
    case JoinTerm(id) => id in s.nodes && s.nodes[id].pc.Joining? && Exited(s.nodes[id].locals)
    case JoinTimeout(id) => id in s.nodes && s.nodes[id].pc.Joining?
    case ExitTerm(id, term) => LiveTerm(s, id, term)
    case GuardWrite(id, term) =>
      LiveTerm(s, id, term) && s.txn.None? &&
      Matches(s.row, Write(id, s.nodes[id].locals.goroutines[term].fence), s.clock)
    case Restart(id, ttl) => id in s.nodes
  }

  function Put(s: State, id: NodeId, n: Node): State {
    s.(nodes := s.nodes[id := n])
  }

  function Committed(r: Request, after: Row): seq<Event> {
    match r
    case Claim(owner, _, _) => [Claimed(owner, after.fence)]
    case Write(owner, fence) => [Wrote(owner, fence)]
    case _ => []
  }

  function DoCommit(s: State): State
    requires Enabled(s, Commit)
  {
    var t := s.txn.value;
    var s' := s.(row := Some(t.after), txn := None, log := s.log + Committed(t.request, t.after));
    var id := t.request.owner;
    if !t.request.Write? && Awaited(s, id)
    then Put(s', id, s.nodes[id].(pc := s.nodes[id].pc.(progress := Answered(true, s.nodes[id].pc.progress.fence))))
    else s'
  }

  function Do(s: State, a: Step): State
    requires Enabled(s, a)
  {
    match a
    case Advance(elapsed) => s.(clock := s.clock + elapsed)
    case BeginTick(id, now) => Put(s, id, Tick(id, s.nodes[id], now))
    case Execute(id) =>
      var n := s.nodes[id];
      var after := After(s.row, n.pc.request);
      Put(s, id, n.(pc := n.pc.(progress := Locked(false, after.fence)))).(txn := Some(Txn(n.pc.request, after, false)))
    case Miss(id) => Put(s, id, s.nodes[id].(pc := s.nodes[id].pc.(progress := Answered(false, 0))))
    case Ack(id) =>
      var n := s.nodes[id];
      Put(s, id, n.(pc := n.pc.(progress := n.pc.progress.(acked := true)))).(txn := Some(s.txn.value.(commitSent := true)))
    case Commit => DoCommit(s)
    case Rollback => s.(txn := None)
    case Deliver(id) =>
      var p := s.nodes[id].pc.progress;
      Put(s, id, Resume(id, s.nodes[id], Answer(p.held, p.fence)))
    case Fail(id) => Put(s, id, Resume(id, s.nodes[id], Error(Provisional(s.nodes[id].pc.progress))))
    case RequestStop(id) => Put(s, id, s.nodes[id].(stopping := true))
    case BeginShutdown(id) => Put(s, id, Shutdown(id, s.nodes[id]))
    case JoinTerm(id) => Put(s, id, Joined(id, s.nodes[id]))
    case JoinTimeout(id) => Put(s, id, s.nodes[id].(pc := Stopped))
    case ExitTerm(id, term) =>
      var l := s.nodes[id].locals;
      Put(s, id, s.nodes[id].(locals := l.(goroutines := l.goroutines[term := l.goroutines[term].(exited := true)])))
    case GuardWrite(id, term) =>
      s.(txn := Some(Txn(Write(id, s.nodes[id].locals.goroutines[term].fence), s.row.value, true)))
    case Restart(id, ttl) => Put(s, id, FreshNode(ttl))
  }

  predicate Init(s: State) {
    && s.row.None? && s.txn.None? && s.log == []
    && forall id | id in s.nodes :: s.nodes[id] == FreshNode(s.nodes[id].ttl)
  }

  /** A run is feasible when each step is enabled in the state the earlier ones reach. */
  ghost predicate Feasible(s: State, run: seq<Step>)
    decreases |run|
  {
    run == [] || (Enabled(s, run[0]) && Feasible(Do(s, run[0]), run[1..]))
  }

  ghost function Reached(s: State, run: seq<Step>): State
    requires Feasible(s, run)
    decreases |run|
  {
    if run == [] then s else Reached(Do(s, run[0]), run[1..])
  }
}
