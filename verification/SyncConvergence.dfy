/**
 Crash convergence and ownership safety of a sync, name by name and for every
 history of interrupted attempts.
 */
module SyncConvergence {
  import opened Common
  import opened Ledger
  import opened SyncScript

  // ---- Where one name ends up --------------------------------------------------------------

  /** The desired name holds its value and is owned; an undesired row is gone, its name too if it was ours. */
  function FinalCell(c: Cell, target: Option<DesiredRow>): Cell {
    match target
    case Some(row) =>
      var e := if c.entry.Some? then c.entry.value else Entry(row.surface, row.name, Reserved, false);
      Cell(Some(e.(state := Owned, missing := false)), Some(row.value))
    case None =>
      if c.entry.None? then c
      else if c.entry.value.state.Reserved? then c.(entry := None)
      else Cell(None, None)
  }

  predicate Blocked(c: Cell, target: Option<DesiredRow>) {
    target.Some? && Foreign(c)
  }

  /** The steps a sync takes on one name. */
  function CellOps(c: Cell, k: Key, target: Option<DesiredRow>, completed: bool): seq<Op> {
    match target
    case Some(row) => if completed then [] else RowOps(c, row)
    case None =>
      if c.entry.None? then []
      else if c.entry.value.state.Reserved? then [ReleaseReservation(k)]
      else [Gate(k), Prepare(k, c.entry.value.state), Remove(k), Finish(k, RELEASED)]
  }

  ghost predicate CellFits(c: Cell, k: Key, target: Option<DesiredRow>, completed: bool) {
    && (target.Some? ==> RowKey(target.value) == k)
    && (completed && target.Some? ==> Delivered(c, target.value))
  }

  /** The name after its first `m` steps. */
  function Stage(c: Cell, target: Option<DesiredRow>, completed: bool, m: nat): Cell {
    match target
    case Some(row) =>
      if completed then c else
      var claim := c.entry.None?;
      var e := if claim then Entry(row.surface, row.name, Reserved, false) else c.entry.value;
      var i := if claim then m else m + 1;
      if m == 0 then c
      else if i <= 2 then c.(entry := Some(e))
      else if i == 3 then c.(entry := Some(Intended(e)))
      else if i == 4 then Cell(Some(Intended(e)), Some(row.value))
      else Cell(Some(e.(state := Owned, missing := false)), Some(row.value))
    case None =>
      if c.entry.None? || m == 0 then c
      else if c.entry.value.state.Reserved? then c.(entry := None)
      else if m <= 2 then c
      else if m == 3 then c.(value := None)
      else Cell(None, None)
  }

  /** Prepare moves a reservation to dispatched and leaves an owned row alone. */
  function Intended(e: Entry): Entry {
    if e.state.Reserved? then e.(state := Dispatched) else e
  }

  lemma StageStep(c: Cell, k: Key, target: Option<DesiredRow>, completed: bool, m: nat)
    requires CellFits(c, k, target, completed) && !Blocked(c, target)
    requires 0 < m <= |CellOps(c, k, target, completed)|
    ensures ApplyCell(Stage(c, target, completed, m - 1), CellOps(c, k, target, completed)[m - 1]) == Stage(c, target, completed, m)
  {}

  lemma {:induction false} ExecIsStage(c: Cell, k: Key, target: Option<DesiredRow>, completed: bool, m: nat)
    requires CellFits(c, k, target, completed) && !Blocked(c, target)
    requires m <= |CellOps(c, k, target, completed)|
    ensures ExecCell(c, CellOps(c, k, target, completed)[..m]) == Stage(c, target, completed, m)
  {
    var ops := CellOps(c, k, target, completed);
    if m > 0 {
      ExecIsStage(c, k, target, completed, m - 1);
      assert ops[..m][..m - 1] == ops[..m - 1];
      StageStep(c, k, target, completed, m);
    }
  }

  /** Stopping after any step loses nothing: the name is still bound for the same end, which a full pass reaches. */
  lemma PrefixKeepsFinal(c: Cell, k: Key, target: Option<DesiredRow>, completed: bool, m: nat)
    requires CellFits(c, k, target, completed) && !Blocked(c, target)
    requires m <= |CellOps(c, k, target, completed)|
    ensures var ops := CellOps(c, k, target, completed);
            var c' := ExecCell(c, ops[..m]);
            && FinalCell(c', target) == FinalCell(c, target)
            && !Blocked(c', target)
            && (m == |ops| ==> c' == FinalCell(c, target))
  {
    ExecIsStage(c, k, target, completed, m);
  }

  // ---- Every name at once ---------------------------------------------------------------------

  ghost function Target(rows: seq<DesiredRow>, k: Key): (r: Option<DesiredRow>)
    ensures r.Some? ==> r.value in rows && RowKey(r.value) == k
    ensures r.None? ==> k !in Keys(rows)
  {
    if exists row :: row in rows && RowKey(row) == k then
      var row :| row in rows && RowKey(row) == k; Some(row)
    else None
  }

  function Upto(ops: seq<Op>, n: nat): seq<Op> {
    ops[..if n <= |ops| then n else |ops|]
  }

  /** The durable state a sync leaves when it stops after `n` steps. */
  function Stopped(d: Durable, w: Work, n: nat): Durable {
    Exec(d, Upto(Script(d, w), n))
  }

  ghost function CellWork(d: Durable, w: Work, k: Key): seq<Op> {
    CellOps(CellOf(d, k), k, Target(w.desired, k), k in w.completed)
  }

  lemma SameRow(rows: seq<DesiredRow>, i: nat)
    requires DistinctKeys(rows) && i < |rows|
    ensures Target(rows, RowKey(rows[i])) == Some(rows[i])
  {
    var k := RowKey(rows[i]);
    assert rows[i] in rows && k in Keys(rows);
    var j :| 0 <= j < |rows| && rows[j] == Target(rows, k).value;
  }

  lemma DesiredMatches(d: Durable, w: Work, i: nat)
    requires DistinctKeys(w.desired) && i < |w.desired|
    ensures RowUnit(d, w.desired[i], w.completed).ops == CellWork(d, w, RowKey(w.desired[i]))
  {
    SameRow(w.desired, i);
  }

  lemma LeftOverMatches(d: Durable, w: Work, e: Entry)
    requires WorkOf(d, w) && (e in w.reservations || e in w.prunes)
    ensures CellWork(d, w, EntryKey(e)) == if e in w.reservations then [ReleaseReservation(EntryKey(e))] else PruneOps(e)
  {}

  lemma UnitMatches(d: Durable, w: Work, u: Unit)
    requires WorkOf(d, w) && u in Units(d, w)
    ensures u.ops == CellWork(d, w, u.key)
  {
    var head := DesiredUnits(d, w.desired, w.completed);
    DesiredUnitsAt(d, w.desired, w.completed);
    if u in head {
      var i :| 0 <= i < |head| && head[i] == u;
      DesiredMatches(d, w, i);
    } else if u in ReservationUnits(w.reservations) {
      var i :| 0 <= i < |w.reservations| && u == ReservationUnits(w.reservations)[i];
      LeftOverMatches(d, w, w.reservations[i]);
    } else {
      var i :| 0 <= i < |w.prunes| && u == PruneUnits(w.prunes)[i];
      assert w.prunes[i] in w.prunes;
      LeftOverMatches(d, w, w.prunes[i]);
    }
  }

  /** Without a conflict every name that needs work is listed. */
  lemma Listed(d: Durable, w: Work, k: Key) returns (u: Unit)
    requires WorkOf(d, w) && !Conflicted(d, w.desired, w.completed)
    requires k in d.ledger || k in Keys(w.desired)
    ensures u in Units(d, w) && u.key == k
  {
    if k in Keys(w.desired) {
      DesiredUnitsAt(d, w.desired, w.completed);
      var i :| 0 <= i < |w.desired| && RowKey(w.desired[i]) == k;
      u := DesiredUnits(d, w.desired, w.completed)[i];
    } else if d.ledger[k].state.Reserved? {
      var j :| 0 <= j < |w.reservations| && w.reservations[j] == d.ledger[k];
      u := ReservationUnits(w.reservations)[j];
    } else {
      var j :| 0 <= j < |w.prunes| && w.prunes[j] == d.ledger[k];
      u := PruneUnits(w.prunes)[j];
    }
  }

  /** A stopped sync has run a first part of each name's own steps. */
  lemma StoppedAt(d: Durable, w: Work, n: nat, k: Key) returns (m: nat)
    requires WorkOf(d, w)
    ensures m <= |CellWork(d, w, k)| && Only(Upto(Script(d, w), n), k) == CellWork(d, w, k)[..m]
    ensures CellOf(Stopped(d, w, n), k) == ExecCell(CellOf(d, k), CellWork(d, w, k)[..m])
    ensures n >= |Script(d, w)| && !Conflicted(d, w.desired, w.completed) ==> m == |CellWork(d, w, k)|
  {
    UnitsAreOk(d, w);
    ExecAt(d, Upto(Script(d, w), n), k);
    var units := Units(d, w);
    if u :| u in units && u.key == k {
      var i :| 0 <= i < |units| && units[i] == u;
      UnitMatches(d, w, u);
      m := ShareOf(units, n, i);
    } else {
      ShareOfOthers(units, n, k);
      m := 0;
      if !Conflicted(d, w.desired, w.completed) && (k in d.ledger || k in Keys(w.desired)) {
        var _ := Listed(d, w, k);
      }
    }
  }

  lemma ShareDecides(d: Durable, w: Work, n: nat, k: Key)
    ensures CellOf(Stopped(d, w, n), k) == ExecCell(CellOf(d, k), Share(Units(d, w), n, k))
  {
    ExecAt(d, Upto(Script(d, w), n), k);
  }

  // ---- Crash convergence ------------------------------------------------------------------------

  ghost predicate NoneForeign(d: Durable, desired: seq<DesiredRow>) {
    forall row | row in desired :: !Foreign(CellOf(d, RowKey(row)))
  }

  /** Every name of `d'` is where a complete sync of `d` puts it. */
  ghost predicate Converged(d: Durable, desired: seq<DesiredRow>, d': Durable) {
    forall k :: CellOf(d', k) == FinalCell(CellOf(d, k), Target(desired, k))
  }

  ghost predicate SameFinal(d: Durable, desired: seq<DesiredRow>, d': Durable) {
    forall k :: FinalCell(CellOf(d', k), Target(desired, k)) == FinalCell(CellOf(d, k), Target(desired, k))
  }

  lemma Extensional(d: Durable, d': Durable)
    requires forall k :: CellOf(d, k) == CellOf(d', k)
    ensures d == d'
  {
    forall k ensures (k in d.ledger <==> k in d'.ledger) && (k in d.remote <==> k in d'.remote)
      ensures k in d.ledger ==> d.ledger[k] == d'.ledger[k]
      ensures k in d.remote ==> d.remote[k] == d'.remote[k]
    {
      assert CellOf(d, k) == CellOf(d', k);
    }
    assert d.ledger == d'.ledger && d.remote == d'.remote;
  }

  lemma StopKeepsFinal(d: Durable, w: Work, n: nat)
    requires WorkOf(d, w) && NoneForeign(d, w.desired)
    ensures SameFinal(d, w.desired, Stopped(d, w, n)) && NoneForeign(Stopped(d, w, n), w.desired)
    ensures n >= |Script(d, w)| ==> Converged(d, w.desired, Stopped(d, w, n))
  {
    var d' := Stopped(d, w, n);
    forall k ensures FinalCell(CellOf(d', k), Target(w.desired, k)) == FinalCell(CellOf(d, k), Target(w.desired, k))
      ensures !Blocked(CellOf(d', k), Target(w.desired, k))
      ensures n >= |Script(d, w)| ==> CellOf(d', k) == FinalCell(CellOf(d, k), Target(w.desired, k))
    {
      var m := StoppedAt(d, w, n, k);
      PrefixKeepsFinal(CellOf(d, k), k, Target(w.desired, k), k in w.completed, m);
    }
    forall row | row in w.desired ensures !Foreign(CellOf(d', RowKey(row))) {
      assert RowKey(row) in Keys(w.desired);
      assert !Blocked(CellOf(d', RowKey(row)), Target(w.desired, RowKey(row)));
    }
  }

  /** An attempt that stops after some of its steps. */
  datatype Attempt = Attempt(steps: nat, work: Work)

  ghost predicate AttemptsOf(d: Durable, desired: seq<DesiredRow>, attempts: seq<Attempt>)
    decreases |attempts|
  {
    attempts == [] ||
    (attempts[0].work.desired == desired && WorkOf(d, attempts[0].work) &&
     AttemptsOf(Stopped(d, attempts[0].work, attempts[0].steps), desired, attempts[1..]))
  }

  ghost function After(d: Durable, attempts: seq<Attempt>): Durable
    decreases |attempts|
  {
    if attempts == [] then d else After(Stopped(d, attempts[0].work, attempts[0].steps), attempts[1..])
  }

  lemma {:induction false} AttemptsKeepFinal(d: Durable, desired: seq<DesiredRow>, attempts: seq<Attempt>)
    requires AttemptsOf(d, desired, attempts) && NoneForeign(d, desired)
    ensures SameFinal(d, desired, After(d, attempts)) && NoneForeign(After(d, attempts), desired)
    decreases |attempts|
  {
    if attempts != [] {
      StopKeepsFinal(d, attempts[0].work, attempts[0].steps);
      AttemptsKeepFinal(Stopped(d, attempts[0].work, attempts[0].steps), desired, attempts[1..]);
    }
  }

  /** Any number of interruptions followed by one success ends exactly like a single uninterrupted sync. */
  lemma CrashConvergence(d: Durable, desired: seq<DesiredRow>, attempts: seq<Attempt>, last: Work, once: Work)
    requires AttemptsOf(d, desired, attempts) && NoneForeign(d, desired)
    requires WorkOf(After(d, attempts), last) && last.desired == desired
    requires WorkOf(d, once) && once.desired == desired
    ensures !Conflicted(After(d, attempts), desired, last.completed)
    ensures Exec(After(d, attempts), Script(After(d, attempts), last)) == Exec(d, Script(d, once))
    ensures Converged(d, desired, Exec(d, Script(d, once)))
  {
    AttemptsKeepFinal(d, desired, attempts);
    var d1 := After(d, attempts);
    StopKeepsFinal(d1, last, |Script(d1, last)|);
    StopKeepsFinal(d, once, |Script(d, once)|);
    assert Upto(Script(d1, last), |Script(d1, last)|) == Script(d1, last);
    assert Upto(Script(d, once), |Script(d, once)|) == Script(d, once);
    var a, b := Exec(d1, Script(d1, last)), Exec(d, Script(d, once));
    forall k ensures CellOf(a, k) == CellOf(b, k) {
      assert CellOf(a, k) == FinalCell(CellOf(d1, k), Target(desired, k));
    }
    Extensional(a, b);
  }

  // ---- Ownership safety ------------------------------------------------------------------------------

  ghost predicate CellKeyed(c: Cell, k: Key) {
    c.entry.Some? ==> EntryKey(c.entry.value) == k && StateOk(Some(c.entry.value.state), c.entry.value.missing)
  }

  /** A prefix of one name's steps, conflicts included: rows stay valid and a foreign value stays put. */
  lemma PrefixIsSafe(c: Cell, k: Key, target: Option<DesiredRow>, completed: bool, m: nat)
    requires CellKeyed(c, k) && CellFits(c, k, target, completed)
    requires m <= |CellOps(c, k, target, completed)|
    ensures var c' := ExecCell(c, CellOps(c, k, target, completed)[..m]);
            CellKeyed(c', k) && (Foreign(c) ==> Foreign(c') && c'.value == c.value)
  {
    var ops := CellOps(c, k, target, completed);
    if !Blocked(c, target) {
      ExecIsStage(c, k, target, completed, m);
    } else {
      RefusalIsSafe(c, k, target, completed, m);
    }
  }

  /** A refused name after its first `m` steps: at most a bare reservation comes and goes. */
  function RefusalStage(c: Cell, row: DesiredRow, m: nat): Cell {
    if m == 0 then c
    else if m == 1 && c.entry.None? then c.(entry := Some(Entry(row.surface, row.name, Reserved, false)))
    else c.(entry := None)
  }

  lemma RefusalStep(c: Cell, row: DesiredRow, m: nat)
    requires Foreign(c) && 0 < m <= |RowOps(c, row)|
    ensures ApplyCell(RefusalStage(c, row, m - 1), RowOps(c, row)[m - 1]) == RefusalStage(c, row, m)
  {}

  lemma {:induction false} ExecIsRefusal(c: Cell, row: DesiredRow, m: nat)
    requires Foreign(c) && m <= |RowOps(c, row)|
    ensures ExecCell(c, RowOps(c, row)[..m]) == RefusalStage(c, row, m)
  {
    if m > 0 {
      ExecIsRefusal(c, row, m - 1);
      assert RowOps(c, row)[..m][..m - 1] == RowOps(c, row)[..m - 1];
      RefusalStep(c, row, m);
    }
  }

  lemma RefusalIsSafe(c: Cell, k: Key, target: Option<DesiredRow>, completed: bool, m: nat)
    requires CellKeyed(c, k) && CellFits(c, k, target, completed) && Blocked(c, target)
    requires m <= |CellOps(c, k, target, completed)|
    ensures var c' := ExecCell(c, CellOps(c, k, target, completed)[..m]);
            CellKeyed(c', k) && Foreign(c') && c'.value == c.value
  {
    ExecIsRefusal(c, target.value, m);
  }

  lemma OneMore(ops: seq<Op>, m: nat, m': nat, op: Op)
    requires m <= |ops| && m' <= |ops| && ops[..m'] == ops[..m] + [op]
    ensures m < |ops| && ops[m] == op
  {
    assert |ops[..m']| == m + 1 && ops[..m'][m] == op;
  }

  lemma StepIsOwnStep(d: Durable, w: Work, n: nat) returns (m: nat)
    requires WorkOf(d, w) && n < |Script(d, w)|
    ensures var k := Script(d, w)[n].key;
            && m < |CellWork(d, w, k)| && CellWork(d, w, k)[m] == Script(d, w)[n]
            && CellOf(Stopped(d, w, n), k) == ExecCell(CellOf(d, k), CellWork(d, w, k)[..m])
  {
    var ops := Script(d, w);
    var k := ops[n].key;
    m := StoppedAt(d, w, n, k);
    var m' := StoppedAt(d, w, n + 1, k);
    assert Upto(ops, n + 1)[..n] == Upto(ops, n);
    OnlyLast(Upto(ops, n + 1), k);
    OneMore(CellWork(d, w, k), m, m', ops[n]);
  }

  lemma WriteIsHeld(c: Cell, k: Key, target: Option<DesiredRow>, completed: bool, m: nat)
    requires CellFits(c, k, target, completed) && m < |CellOps(c, k, target, completed)|
    requires var op := CellOps(c, k, target, completed)[m]; op.Put? || op.Remove?
    ensures !Foreign(c) && !Blocked(c, target)
    ensures var held := Stage(c, target, completed, m);
            held.entry.Some? && !held.entry.value.state.Reserved? && held.value == c.value
  {}

  /** Before the provider is written, the ledger durably holds the name; a name it only reserves was absent. */
  lemma WritesOnlyHeldNames(d: Durable, w: Work, n: nat)
    requires WorkOf(d, w) && n < |Script(d, w)| && (Script(d, w)[n].Put? || Script(d, w)[n].Remove?)
    ensures var k := Script(d, w)[n].key;
            var held := CellOf(Stopped(d, w, n), k).entry;
            && held.Some? && !held.value.state.Reserved?
            && !Foreign(CellOf(d, k))
            && CellOf(Stopped(d, w, n), k).value == CellOf(d, k).value
  {
    var k := Script(d, w)[n].key;
    var m := StepIsOwnStep(d, w, n);
    WriteIsHeld(CellOf(d, k), k, Target(w.desired, k), k in w.completed, m);
    ExecIsStage(CellOf(d, k), k, Target(w.desired, k), k in w.completed, m);
  }

  lemma CellCompletionsAreValid(c: Cell, k: Key, target: Option<DesiredRow>, completed: bool, m: nat)
    requires m < |CellOps(c, k, target, completed)| && CellOps(c, k, target, completed)[m].Finish?
    ensures ValidateCompletion(CellOps(c, k, target, completed)[m].completion)
  {}

  /** Every completion a sync journals is one the journal accepts. */
  lemma CompletionsAreValid(d: Durable, w: Work, n: nat)
    requires WorkOf(d, w) && n < |Script(d, w)| && Script(d, w)[n].Finish?
    ensures ValidateCompletion(Script(d, w)[n].completion)
  {
    var k := Script(d, w)[n].key;
    var m := StepIsOwnStep(d, w, n);
    CellCompletionsAreValid(CellOf(d, k), k, Target(w.desired, k), k in w.completed, m);
  }

  /** One thing that happens to a target: an attempt that stops somewhere, or somebody else at the provider. */
  datatype Event = Synced(steps: nat, work: Work) | Tampered(key: Key, value: Option<string>)

  function Happen(d: Durable, e: Event): Durable {
    match e
    case Synced(steps, work) => Stopped(d, work, steps)
    case Tampered(key, value) => SetCell(d, key, CellOf(d, key).(value := value))
  }

  /** A history keeps its ledger readable: each attempt starts from a valid index of what is durable. */
  ghost predicate History(d: Durable, events: seq<Event>)
    decreases |events|
  {
    events == [] || ((events[0].Synced? ==> WorkOf(d, events[0].work)) && History(Happen(d, events[0]), events[1..]))
  }

  ghost function Outcome(d: Durable, events: seq<Event>): Durable
    decreases |events|
  {
    if events == [] then d else Outcome(Happen(d, events[0]), events[1..])
  }

  lemma HappenIsSafe(d: Durable, e: Event, k: Key)
    requires WellKeyed(d.ledger) && (e.Synced? ==> WorkOf(d, e.work))
    ensures WellKeyed(Happen(d, e).ledger)
    ensures Foreign(CellOf(d, k)) && !(e.Tampered? && e.key == k) ==>
              Foreign(CellOf(Happen(d, e), k)) && CellOf(Happen(d, e), k).value == CellOf(d, k).value
  {
    if e.Synced? {
      forall j ensures CellKeyed(CellOf(Happen(d, e), j), j)
        ensures Foreign(CellOf(d, j)) ==> Foreign(CellOf(Happen(d, e), j)) && CellOf(Happen(d, e), j).value == CellOf(d, j).value
      {
        var m := StoppedAt(d, e.work, e.steps, j);
        PrefixIsSafe(CellOf(d, j), j, Target(e.work.desired, j), j in e.work.completed, m);
      }
      forall j | j in Happen(d, e).ledger
        ensures EntryKey(Happen(d, e).ledger[j]) == j && StateOk(Some(Happen(d, e).ledger[j].state), Happen(d, e).ledger[j].missing)
      {
        assert CellKeyed(CellOf(Happen(d, e), j), j);
      }
    }
  }

  /** A name present at the provider that the ledger does not own is never changed, whatever is synced, torn down or crashes. */
  lemma {:induction false} ForeignNamesSurvive(d: Durable, events: seq<Event>, k: Key)
    requires WellKeyed(d.ledger) && History(d, events)
    requires Foreign(CellOf(d, k)) && forall e | e in events && e.Tampered? :: e.key != k
    ensures WellKeyed(Outcome(d, events).ledger)
    ensures Foreign(CellOf(Outcome(d, events), k)) && CellOf(Outcome(d, events), k).value == CellOf(d, k).value
    decreases |events|
  {
    if events != [] {
      HappenIsSafe(d, events[0], k);
      ForeignNamesSurvive(Happen(d, events[0]), events[1..], k);
    }
  }
}
