/**
 A sync job end to end: the calls an outbox worker makes, each a sync of the
 target that may stop anywhere, and the target they leave behind. The worker
 lets a call skip what earlier calls of the same revision reported; a job that
 succeeds has converged all the same.
 */
module SyncJob {
  import opened Common
  import opened Sorting
  import opened Ledger
  import opened SyncScript
  import opened SyncConvergence
  import opened FakeModule
  import Outbox

  /** What one call did: nothing, or a first part of its script; `loaded` are names the loader knew to be delivered. */
  datatype Turn = Idle | Ran(work: Work, steps: nat, loaded: set<Key>)

  ghost predicate KnownDelivered(d: Durable, desired: seq<DesiredRow>, names: set<Key>) {
    forall row | row in desired && RowKey(row) in names :: Delivered(CellOf(d, RowKey(row)), row)
  }

  /** The contract of a sync, for a call that was handed these acknowledgements. */
  ghost predicate TurnOf(d: Durable, desired: seq<DesiredRow>, call: Outbox.Call, turn: Turn, d': Durable) {
    match turn
    case Idle => d' == d && call.changes == [] && call.error.Some?
    case Ran(work, steps, loaded) =>
      && work.desired == desired && work.completed == loaded + CompletedNames(call.acks)
      && KnownDelivered(d, desired, loaded)
      && Prepared(d, work) && d' == Stopped(d, work, steps) && Acknowledged(work, d', call.changes)
      && (call.error.None? <==> steps >= |Script(d, work)| && !Conflicted(d, desired, work.completed))
  }

  /** One call of the module: it may skip what the loader knows to be delivered and what the job has acknowledged so far. */
  method CallSync(target: FakeModule.Target, prefix: string, manifest: seq<ManifestEntry>, rows: seq<Entry>, loaded: seq<Change>,
                  acks: seq<Change>, teardown: bool, revision: int, failure: Outbox.Error)
    returns (call: Outbox.Call, ghost turn: Turn)
    requires Enumerates(rows, target.ledger) && forall k | k in target.ledger :: EntryKey(target.ledger[k]) == k
    modifies target
    ensures call.revision == revision && call.acks == acks
    ensures old(KnownDelivered(target.State(), Desired(prefix, manifest, !teardown), CompletedNames(loaded))) ==>
              TurnOf(old(target.State()), Desired(prefix, manifest, !teardown), call, turn, target.State())
  {
    ghost var steps := target.budget;
    var ending, changes, w := target.Sync(prefix, manifest, rows, loaded + acks, teardown);
    assert CompletedNames(loaded + acks) == CompletedNames(loaded) + CompletedNames(acks);
    turn := if ending.Rejected? then Idle else Ran(w, steps, CompletedNames(loaded));
    call := Outbox.Call(revision, acks, changes, if ending.Synchronized? then None else Some(failure));
  }

  /** The calls of a job, and the states of the target between them. */
  ghost predicate JobRuns(states: seq<Durable>, calls: seq<Outbox.Call>, turns: seq<Turn>, desired: int -> seq<DesiredRow>) {
    && |states| == |calls| + 1 && |turns| == |calls|
    && forall i {:trigger calls[i]} | 0 <= i < |calls| ::
         TurnOf(states[i], desired(calls[i].revision), calls[i], turns[i], states[i + 1])
  }

  /** The calls from `from` until `until` loaded one revision. */
  ghost predicate OneRevision(calls: seq<Outbox.Call>, from: nat, until: nat, revision: int) {
    until <= |calls| && forall i | from <= i < until :: calls[i].revision == revision
  }

  // ---- What is delivered stays delivered ---------------------------------------------------------------

  lemma DeliveredCellStays(c: Cell, row: DesiredRow, completed: bool, m: nat)
    requires Delivered(c, row) && m <= |CellOps(c, RowKey(row), Some(row), completed)|
    ensures Delivered(ExecCell(c, CellOps(c, RowKey(row), Some(row), completed)[..m]), row)
  {
    ExecIsStage(c, RowKey(row), Some(row), completed, m);
  }

  lemma DeliveredStays(d: Durable, w: Work, n: nat, row: DesiredRow)
    requires WorkOf(d, w) && row in w.desired && Delivered(CellOf(d, RowKey(row)), row)
    ensures Delivered(CellOf(Stopped(d, w, n), RowKey(row)), row)
  {
    var i :| 0 <= i < |w.desired| && w.desired[i] == row;
    SameRow(w.desired, i);
    var m := StoppedAt(d, w, n, RowKey(row));
    DeliveredCellStays(CellOf(d, RowKey(row)), row, RowKey(row) in w.completed, m);
  }

  /** Every turn up to `n` worked on a state that holds what it was told to skip. */
  ghost predicate SoundUpTo(states: seq<Durable>, turns: seq<Turn>, n: nat) {
    n <= |turns| && n < |states| && forall i | 0 <= i < n && turns[i].Ran? :: WorkOf(states[i], turns[i].work)
  }

  lemma DeliveredAfterTurn(d: Durable, desired: seq<DesiredRow>, call: Outbox.Call, turn: Turn, d': Durable, row: DesiredRow)
    requires TurnOf(d, desired, call, turn, d') && (turn.Ran? ==> WorkOf(d, turn.work))
    requires row in desired && Delivered(CellOf(d, RowKey(row)), row)
    ensures Delivered(CellOf(d', RowKey(row)), row)
  {
    if turn.Ran? { DeliveredStays(d, turn.work, turn.steps, row); }
  }

  lemma {:induction false} DeliveredUntil(states: seq<Durable>, calls: seq<Outbox.Call>, turns: seq<Turn>,
                                          desired: int -> seq<DesiredRow>, from: nat, until: nat, revision: int, row: DesiredRow)
    requires JobRuns(states, calls, turns, desired) && from <= until <= |calls| && OneRevision(calls, from, until, revision)
    requires SoundUpTo(states, turns, until) && row in desired(revision) && Delivered(CellOf(states[from], RowKey(row)), row)
    ensures Delivered(CellOf(states[until], RowKey(row)), row)
    decreases until
  {
    if from < until {
      var n := until - 1;
      DeliveredUntil(states, calls, turns, desired, from, n, revision, row);
      assert TurnOf(states[n], desired(calls[n].revision), calls[n], turns[n], states[n + 1]);
      DeliveredAfterTurn(states[n], desired(revision), calls[n], turns[n], states[until], row);
    }
  }

  /** A row that call `j` reported is delivered behind it. */
  lemma ReportedIsThere(states: seq<Durable>, calls: seq<Outbox.Call>, turns: seq<Turn>, desired: int -> seq<DesiredRow>, j: nat,
                        row: DesiredRow, ack: Change)
    requires JobRuns(states, calls, turns, desired) && j < |calls| && SoundUpTo(states, turns, j + 1)
    requires row in desired(calls[j].revision) && ack in calls[j].changes && NewKey(ack.surface, ack.name) == RowKey(row)
    ensures Delivered(CellOf(states[j + 1], RowKey(row)), row)
  {
    assert TurnOf(states[j], desired(calls[j].revision), calls[j], turns[j], states[j + 1]);
    assert RowKey(row) in CompletedNames(calls[j].changes);
    if RowKey(row) in turns[j].work.completed {
      DeliveredStays(states[j], turns[j].work, turns[j].steps, row);
    }
  }

  /** Call `j` reported the acknowledgement, under the revision that call `i` loads. */
  ghost predicate Reported(calls: seq<Outbox.Call>, i: nat, j: nat, ack: Change)
    requires i < |calls|
  {
    j < i && ack in calls[j].changes && OneRevision(calls, j, i, calls[i].revision)
  }

  ghost predicate AcksReported(calls: seq<Outbox.Call>, i: nat)
    requires i < |calls|
  {
    forall ack | ack in calls[i].acks :: exists j :: Reported(calls, i, j, ack)
  }

  ghost predicate AllReported(calls: seq<Outbox.Call>) {
    forall i: nat {:trigger AcksReported(calls, i)} | i < |calls| :: AcksReported(calls, i)
  }

  lemma AcksAreReported(calls: seq<Outbox.Call>)
    requires Outbox.AcksOfOwnRevision(calls)
    ensures AllReported(calls)
  {
    forall i: nat, ack | i < |calls| && ack in calls[i].acks ensures exists j :: Reported(calls, i, j, ack) {
      var j: nat :| j < i && ack in calls[j].changes && forall m | j <= m <= i :: calls[m].revision == calls[i].revision;
      assert Reported(calls, i, j, ack);
    }
  }

  /** What call `i` was handed as acknowledged is delivered when it starts. */
  lemma AckIsDelivered(states: seq<Durable>, calls: seq<Outbox.Call>, turns: seq<Turn>, desired: int -> seq<DesiredRow>, i: nat, j: nat,
                       row: DesiredRow, ack: Change)
    requires JobRuns(states, calls, turns, desired) && i < |calls| && SoundUpTo(states, turns, i) && Reported(calls, i, j, ack)
    requires row in desired(calls[i].revision) && NewKey(ack.surface, ack.name) == RowKey(row)
    ensures Delivered(CellOf(states[i], RowKey(row)), row)
  {
    assert calls[j].revision == calls[i].revision;
    ReportedIsThere(states, calls, turns, desired, j, row, ack);
    DeliveredUntil(states, calls, turns, desired, j + 1, i, calls[i].revision, row);
  }

  lemma TurnIsSound(states: seq<Durable>, calls: seq<Outbox.Call>, turns: seq<Turn>, desired: int -> seq<DesiredRow>, i: nat)
    requires JobRuns(states, calls, turns, desired) && i < |calls| && AcksReported(calls, i) && SoundUpTo(states, turns, i)
    ensures turns[i].Ran? ==> WorkOf(states[i], turns[i].work)
  {
    assert TurnOf(states[i], desired(calls[i].revision), calls[i], turns[i], states[i + 1]);
    if turns[i].Ran? {
      var w := turns[i].work;
      forall row | row in w.desired && RowKey(row) in w.completed ensures Delivered(CellOf(states[i], RowKey(row)), row) {
        if RowKey(row) !in turns[i].loaded {
          var ack :| ack in calls[i].acks && NewKey(ack.surface, ack.name) == RowKey(row);
          var j :| Reported(calls, i, j, ack);
          AckIsDelivered(states, calls, turns, desired, i, j, row, ack);
        }
      }
    }
  }

  lemma SoundGrows(states: seq<Durable>, turns: seq<Turn>, i: nat)
    requires SoundUpTo(states, turns, i) && i < |turns| && i + 1 < |states| && (turns[i].Ran? ==> WorkOf(states[i], turns[i].work))
    ensures SoundUpTo(states, turns, i + 1)
  {}

  /** The worker never lets a call skip a name that does not hold what is desired. */
  lemma {:induction false} CallsSkipOnlyDelivered(states: seq<Durable>, calls: seq<Outbox.Call>, turns: seq<Turn>,
                                                  desired: int -> seq<DesiredRow>, n: nat)
    requires JobRuns(states, calls, turns, desired) && AllReported(calls) && n <= |calls|
    ensures SoundUpTo(states, turns, n)
  {
    if n > 0 {
      assert AcksReported(calls, n - 1);
      CallsSkipOnlyDelivered(states, calls, turns, desired, n - 1);
      TurnIsSound(states, calls, turns, desired, n - 1);
      SoundGrows(states, turns, n - 1);
    }
  }

  // ---- Where a successful job ends -----------------------------------------------------------------------

  /** The last turn of a successful job ran in full over names nobody else holds. */
  lemma LastTurnConverges(d: Durable, desired: seq<DesiredRow>, call: Outbox.Call, turn: Turn, d': Durable)
    requires TurnOf(d, desired, call, turn, d') && call.error.None? && turn.Ran? && WorkOf(d, turn.work)
    ensures NoneForeign(d, desired) && Converged(d, desired, d')
  {
    forall row | row in desired ensures !Foreign(CellOf(d, RowKey(row))) {
      assert !Refused(d, row, turn.work.completed);
    }
    StopKeepsFinal(d, turn.work, turn.steps);
  }

  lemma TurnKeepsFinal(d: Durable, desired: seq<DesiredRow>, call: Outbox.Call, turn: Turn, d': Durable, end: Durable)
    requires TurnOf(d, desired, call, turn, d') && (turn.Ran? ==> WorkOf(d, turn.work))
    requires NoneForeign(d', desired) && Converged(d', desired, end)
    ensures NoneForeign(d, desired) && Converged(d, desired, end)
  {
    if turn.Ran? {
      forall row | row in desired ensures !Foreign(CellOf(d, RowKey(row))) {
        HappenIsSafe(d, Synced(turn.steps, turn.work), RowKey(row));
      }
      StopKeepsFinal(d, turn.work, turn.steps);
    }
  }

  /** From state `i` on the job goes where one uninterrupted sync would. */
  ghost predicate BoundFor(states: seq<Durable>, i: nat, desired: seq<DesiredRow>, end: Durable) {
    i < |states| && NoneForeign(states[i], desired) && Converged(states[i], desired, end)
  }

  lemma LastTurnIsBound(states: seq<Durable>, calls: seq<Outbox.Call>, turns: seq<Turn>, desired: int -> seq<DesiredRow>, revision: int)
    requires JobRuns(states, calls, turns, desired) && SoundUpTo(states, turns, |calls|)
    requires calls != [] && calls[|calls| - 1].error.None? && calls[|calls| - 1].revision == revision
    ensures BoundFor(states, |calls| - 1, desired(revision), states[|calls|])
  {
    var n := |calls| - 1;
    assert TurnOf(states[n], desired(calls[n].revision), calls[n], turns[n], states[n + 1]);
    LastTurnConverges(states[n], desired(revision), calls[n], turns[n], states[n + 1]);
  }

  lemma EarlierTurnIsBound(states: seq<Durable>, calls: seq<Outbox.Call>, turns: seq<Turn>, desired: int -> seq<DesiredRow>, revision: int,
                           i: nat, end: Durable)
    requires JobRuns(states, calls, turns, desired) && SoundUpTo(states, turns, |calls|) && i < |calls| && calls[i].revision == revision
    requires BoundFor(states, i + 1, desired(revision), end)
    ensures BoundFor(states, i, desired(revision), end)
  {
    assert TurnOf(states[i], desired(calls[i].revision), calls[i], turns[i], states[i + 1]);
    TurnKeepsFinal(states[i], desired(revision), calls[i], turns[i], states[i + 1], end);
  }

  lemma {:induction false} BoundBack(states: seq<Durable>, desired: seq<DesiredRow>, end: Durable, first: nat, n: nat)
    requires first <= n && BoundFor(states, n, desired, end)
    requires forall i: nat | first <= i < n && BoundFor(states, i + 1, desired, end) :: BoundFor(states, i, desired, end)
    ensures BoundFor(states, first, desired, end)
    decreases n
  {
    if first < n { BoundBack(states, desired, end, first, n - 1); }
  }

  lemma RevisionConverges(states: seq<Durable>, calls: seq<Outbox.Call>, turns: seq<Turn>, desired: int -> seq<DesiredRow>, first: nat, revision: int)
    requires JobRuns(states, calls, turns, desired) && first < |calls| && OneRevision(calls, first, |calls|, revision)
    requires SoundUpTo(states, turns, |calls|) && calls[|calls| - 1].error.None?
    ensures BoundFor(states, first, desired(revision), states[|calls|])
  {
    var n, end := |calls| - 1, states[|calls|];
    LastTurnIsBound(states, calls, turns, desired, revision);
    forall i: nat | first <= i < n && BoundFor(states, i + 1, desired(revision), end) ensures BoundFor(states, i, desired(revision), end) {
      EarlierTurnIsBound(states, calls, turns, desired, revision, i, end);
    }
    BoundBack(states, desired(revision), end, first, n);
  }

  /** The target holds exactly what is desired: each row is delivered, and the ledger has no other. */
  ghost predicate Holds(d: Durable, desired: seq<DesiredRow>) {
    && (forall row | row in desired :: Delivered(CellOf(d, RowKey(row)), row))
    && (forall k | k in d.ledger :: k in Keys(desired))
  }

  lemma ConvergedHolds(d: Durable, desired: seq<DesiredRow>, d': Durable)
    requires Converged(d, desired, d') && DistinctKeys(desired)
    ensures Holds(d', desired)
  {
    forall row | row in desired ensures Delivered(CellOf(d', RowKey(row)), row) {
      var i :| 0 <= i < |desired| && desired[i] == row;
      SameRow(desired, i);
      assert CellOf(d', RowKey(row)) == FinalCell(CellOf(d, RowKey(row)), SyncConvergence.Target(desired, RowKey(row)));
    }
    forall k | k in d'.ledger ensures k in Keys(desired) {
      assert CellOf(d', k) == FinalCell(CellOf(d, k), SyncConvergence.Target(desired, k));
    }
  }

  /**
   A job settled as succeeded leaves the target holding exactly what the settled
   revision desires, and where one uninterrupted sync from the first call of that
   revision on would have left it, whatever stopped, waited or was skipped between.
   */
  lemma SuccessMeansConverged(s: Outbox.Settlement, rounds: nat -> Outbox.Round, states: seq<Durable>, calls: seq<Outbox.Call>,
                              turns: seq<Turn>, desired: int -> seq<DesiredRow>, first: nat)
    requires Outbox.SettlesSync(s, rounds, calls) && s.Succeed? && Outbox.AcksOfOwnRevision(calls)
    requires JobRuns(states, calls, turns, desired)
    requires first < |calls| && OneRevision(calls, first, |calls|, s.revision)
    ensures Holds(states[|calls|], desired(s.revision))
    ensures Converged(states[first], desired(s.revision), states[|calls|])
  {
    AcksAreReported(calls);
    CallsSkipOnlyDelivered(states, calls, turns, desired, |calls|);
    RevisionConverges(states, calls, turns, desired, first, s.revision);
    var n := |calls| - 1;
    assert TurnOf(states[n], desired(calls[n].revision), calls[n], turns[n], states[n + 1]);
    ConvergedHolds(states[first], desired(s.revision), states[|calls|]);
  }
}
