/**
 The host side of an upgrade: a journal on disk that is kept in step with the
 database's control record. Every operation on the host, the journal or the
 database may fail, with or without having taken effect, and the host may crash
 at any of them; the next run reconciles what it finds.
 */
module UpgradeApply {
  import opened Common
  import opened UpgradeRecord

  datatype Phase = Proved | WriteIntent | SchemaAppliedPhase | HopHealthy | Complete | RestoreRequiredPhase

  datatype Report = Done | Failed | Crashed

  /** One answer of the environment: whether the operation took effect, what it reported, and how far a child got. */
  datatype Answer = Answer(effect: bool, report: Report, detail: nat)

  /** Journal and database belong together. */
  ghost predicate Aligned(phase: Phase, hop: nat, db: Database, route: Route) {
    && Consistent(db, route)
    && match phase {
         case Proved => hop == 0 && Before(db, route, 0)
         case WriteIntent => hop < route.length && (Before(db, route, hop) || On(db, route, hop))
         case SchemaAppliedPhase => hop < route.length && Past(db, route, hop)
         case HopHealthy => 0 < hop <= route.length && Before(db, route, hop)
         case RestoreRequiredPhase => hop < route.length && Past(db, route, hop)
         case Complete => hop == route.length && Before(db, route, hop)
       }
  }

  /** What the journal says about the schemas in place, and that each hop was migrated at most once, in route order. */
  lemma AlignmentCountsSchemas(phase: Phase, hop: nat, db: Database, route: Route)
    requires Aligned(phase, hop, db, route) && route.length > 0
    ensures phase.WriteIntent? ==> db.schemas == hop || db.schemas == hop + 1
    ensures phase.SchemaAppliedPhase? || phase.RestoreRequiredPhase? ==> db.schemas == hop + 1
    ensures phase.HopHealthy? || phase.Proved? || phase.Complete? ==> db.schemas == hop
    ensures exists n: nat :: db.writes == Hops(n) && db.schemas <= n <= db.schemas + 1
    ensures phase.Complete? ==>
              db.control.value.op.phase.Healthy? && db.control.value.applied == route.length && !db.control.value.maintenance
  {
    var i := if Ours(db, route) then db.control.value.op.hop else 0;
    assert db.writes == Hops(0) || db.writes == Hops(i) || db.writes == Hops(i + 1);
  }

  /** The checks of a control record against the route. */
  predicate PendingMatches(c: Control, route: Route, index: nat) {
    !c.op.invalidated && c.op.route == route.digest && c.op.hop == index && c.op.length == route.length
  }

  predicate HealthyMatches(c: Control, route: Route, index: nat) {
    PendingMatches(c, route, index) && c.op.phase.Healthy? && c.applied == index + 1 && c.maintenance == (index + 1 != route.length)
  }

  predicate PositionOk(phase: Phase, hop: nat, route: Route) {
    && route.length > 0 && hop <= route.length
    && match phase {
         case Proved => hop == 0
         case HopHealthy => hop != 0
         case WriteIntent => hop != route.length
         case SchemaAppliedPhase => hop != route.length
         case _ => false
       }
  }

  /** Exactly the states from which a run can complete. */
  predicate Recoverable(phase: Phase, db: Database, route: Route) {
    !phase.RestoreRequiredPhase? && !phase.Complete? && Open(db, route)
  }

  class Host {
    const route: Route
    var phase: Phase
    var hop: nat
    var db: Database
    // Whether the last operation on the service was the fence that stops it.
    var fenced: bool
    const answers: nat -> Answer
    var asked: nat

    constructor (route: Route, db: Database, answers: nat -> Answer)
      requires route.length > 0 && Before(db, route, 0) && Untouched(db, route)
      ensures Valid() && this.route == route && this.db == db
    {
      this.route, phase, hop, this.db, fenced, this.answers, asked := route, Proved, 0, db, true, answers, 0;
    }

    ghost predicate Valid()
      reads this
    {
      route.length > 0 && Aligned(phase, hop, db, route)
    }

    /** Every operation succeeds and every candidate is healthy. */
    ghost predicate Willing()
      reads this
    {
      forall n :: answers(n).report.Done? && answers(n).detail % 3 == 0
    }

    method Ask() returns (a: Answer)
      modifies this`asked
      ensures a == answers(old(asked))
    {
      a, asked := answers(asked), asked + 1;
    }

    method WriteJournal(p: Phase, h: nat) returns (r: Report)
      modifies this`phase, this`hop, this`asked
      ensures (phase == p && hop == h) || (!r.Done? && phase == old(phase) && hop == old(hop))
      ensures Willing() ==> r.Done?
    {
      var a := Ask();
      if a.effect || a.report.Done? {
        phase, hop := p, h;
      }
      return a.report;
    }

    /** Reads the control record; an absent record is an answer of its own. */
    method Control() returns (r: Report, c: Option<Control>)
      modifies this`asked
      ensures r.Done? ==> c == db.control
      ensures Willing() ==> r.Done?
    {
      var a := Ask();
      return a.report, db.control;
    }

    /** Whether the installed source of hop `index` is exactly what the route expects. */
    method Installed(index: nat) returns (r: Report)
      modifies this`asked
      ensures r.Done? ==> db.schemas == index && !db.partial && (db.control.Some? ==> db.control.value.applied == index)
      ensures Willing() && db.schemas == index && !db.partial && (db.control.Some? ==> db.control.value.applied == index) ==> r.Done?
    {
      var a := Ask();
      if a.report.Done? && !(db.schemas == index && !db.partial && (db.control.Some? ==> db.control.value.applied == index)) {
        return Failed;
      }
      return a.report;
    }

    method Migrate(index: nat) returns (r: Report)
      requires Consistent(db, route) && index < route.length && Launchable(db, route, index)
      modifies this`db, this`asked
      ensures Consistent(db, route) && Forward(old(db), db, route) && (Before(db, route, index) || On(db, route, index))
      ensures r.Done? ==> db == ChildRun(old(db), route, index, |CHILD|)
      ensures Willing() ==> r.Done?
    {
      var a := Ask();
      var n := if a.report.Done? then |CHILD| else a.detail % (|CHILD| + 1);
      ChildIsSafe(db, route, index, n);
      db := ChildRun(db, route, index, n);
      return a.report;
    }

    /** Starts the candidate; its own gate may record health or a required restore before or without an answer. */
    method StartCandidate(index: nat) returns (r: Report)
      requires Consistent(db, route) && Past(db, route, index)
      modifies this`db, this`fenced, this`asked
      ensures Consistent(db, route) && Forward(old(db), db, route) && Past(db, route, index)
      ensures Willing() ==> r.Done? && (Open(old(db), route) ==> db.control.value.op.phase.Healthy?)
      ensures !Open(old(db), route) ==> db.control == old(db).control
    {
      var a := Ask();
      fenced := false;
      var verdict := if a.detail % 3 == 0 then Healthy else RestoreRequired;
      if a.detail % 3 != 2 {
        MoveIsSafe(db, route, index, verdict);
        db := Moved(db, verdict);
      }
      return a.report;
    }

    /** An operation on the service that the database does not see. */
    method Act() returns (r: Report)
      modifies this`asked
      ensures Willing() ==> r.Done?
    {
      var a := Ask();
      return a.report;
    }

    method FenceAndStop() returns (r: Report)
      modifies this`fenced, this`asked
      ensures !r.Crashed? ==> fenced
      ensures Willing() ==> r.Done?
    {
      var a := Ask();
      if !a.report.Crashed? { fenced := true; }
      return a.report;
    }

    /** Whether hop `index` is still to be migrated, judged from what is durable. */
    method Disposition(index: nat) returns (r: Report, migrate: bool)
      requires Valid() && index < route.length
      requires hop == index && PositionOk(phase, hop, route)
      modifies this`asked
      ensures r.Done? && migrate ==> Launchable(db, route, index)
      ensures r.Done? && !migrate ==> Past(db, route, index) && Open(db, route)
      ensures r.Done? && db.control.Some? && !Ours(db, route) ==> !db.control.value.op.invalidated
      ensures Willing() && Open(db, route) ==> r.Done?
    {
      var read, c := Control();
      if !read.Done? { return read, false; }
      if c.Some? && PendingMatches(c.value, route, index) {
        match c.value.op.phase {
          case SchemaApplied =>
            return if phase.WriteIntent? || phase.SchemaAppliedPhase? then Done else Failed, false;
          case Healthy =>
            return if phase.WriteIntent? || phase.SchemaAppliedPhase? then Done else Failed, false;
          case Prepared =>
            if !phase.WriteIntent? { return Failed, false; }
          case _ => return Failed, false;
        }
      } else if phase.SchemaAppliedPhase? {
        return Failed, false;
      } else if c.None? {
        if index != 0 || !route.legacy { return Failed, false; }
      } else if c.value.op.invalidated || !c.value.op.phase.Healthy? {
        return Failed, false;
      } else if index > 0 && !HealthyMatches(c.value, route, index - 1) {
        return Failed, false;
      }
      var installed := Installed(index);
      return installed, true;
    }

    /** Records the intent, runs the child and confirms the exact schema-applied record. */
    method MigrateHop(index: nat) returns (r: Report)
      requires Valid() && index < route.length && Launchable(db, route, index)
      requires db.control.Some? && !Ours(db, route) ==> !db.control.value.op.invalidated
      modifies this`phase, this`hop, this`db, this`asked
      ensures Valid() && Forward(old(db), db, route)
      ensures (phase == old(phase) && hop == old(hop)) || (hop == index && (phase.WriteIntent? || phase.SchemaAppliedPhase?))
      ensures r.Done? ==> Past(db, route, index) && phase.SchemaAppliedPhase? && hop == index
      ensures r.Done? ==> Open(old(db), route) && Open(db, route)
      ensures Willing() && Open(old(db), route) ==> r.Done?
    {
      ChildEnds(db, route, index);
      r := WriteJournal(WriteIntent, index);
      if !r.Done? { return; }
      r := Migrate(index);
      if !r.Done? { return; }
      var c;
      r, c := Control();
      if !r.Done? { return; }
      if c.None? || !PendingMatches(c.value, route, index) || !c.value.op.phase.SchemaApplied? { return Failed; }
      r := WriteJournal(SchemaAppliedPhase, index);
    }

    /** Stops the candidate for good: the journal blocks every retry, and a healthy record is left alone. */
    method RecordHealthFailure(index: nat) returns (r: Report)
      requires Valid() && index < route.length && Past(db, route, index)
      modifies this`phase, this`hop, this`db, this`fenced, this`asked
      ensures Valid() && Forward(old(db), db, route) && !r.Done?
      ensures (phase == old(phase) && hop == old(hop)) || (phase.RestoreRequiredPhase? && hop == index)
    {
      r := FenceAndStop();
      if r.Crashed? { return; }
      r := WriteJournal(RestoreRequiredPhase, index);
      if r.Crashed? { return; }
      var c;
      r, c := Control();
      if r.Crashed? { return; }
      if r.Done? && c.Some? && PendingMatches(c.value, route, index) && c.value.op.phase.SchemaApplied? {
        var a := Ask();
        if a.effect {
          MoveIsSafe(db, route, index, RestoreRequired);
          db := Moved(db, RestoreRequired);
        }
        if a.report.Crashed? { return Crashed; }
      }
      return Failed;
    }

    /** Journals a hop whose healthy record was read, and fences the service unless it was the last. */
    method RecordHop(index: nat) returns (r: Report)
      requires Valid() && index < route.length && Past(db, route, index) && HealthyMatches(db.control.value, route, index)
      modifies this`phase, this`hop, this`fenced, this`asked
      ensures Valid()
      ensures (phase.HopHealthy? && hop == index + 1) || (!r.Done? && phase == old(phase) && hop == old(hop))
      ensures Willing() ==> r.Done?
    {
      r := WriteJournal(HopHealthy, index + 1);
      if !r.Done? { return; }
      if index + 1 != route.length {
        r := FenceAndStop();
      }
    }

    /** Starts hop `index`'s binary and reads the record it leaves. */
    method ProveCandidate(index: nat) returns (r: Report, healthy: bool)
      requires Valid() && index < route.length && Past(db, route, index)
      modifies this`db, this`fenced, this`asked
      ensures Valid() && Forward(old(db), db, route) && Past(db, route, index)
      ensures healthy ==> r.Done? && HealthyMatches(db.control.value, route, index) && Open(old(db), route)
      ensures Willing() && Open(old(db), route) ==> healthy
    {
      r := StartCandidate(index);
      healthy := false;
      if r.Done? {
        var c;
        r, c := Control();
        healthy := r.Done? && c.Some? && HealthyMatches(c.value, route, index);
      }
    }

    /** Installs and starts hop `index`'s binary and confirms its health. */
    method CheckHop(index: nat) returns (r: Report)
      requires Valid() && index < route.length && Past(db, route, index)
      modifies this`phase, this`hop, this`db, this`fenced, this`asked
      ensures Valid() && Forward(old(db), db, route)
      ensures r.Done? ==> phase.HopHealthy? && hop == index + 1 && Open(old(db), route)
      ensures Willing() && Open(old(db), route) ==> r.Done?
      ensures !r.Done? ==> (phase == old(phase) && hop == old(hop)) || (phase.RestoreRequiredPhase? && hop == index) || (phase.HopHealthy? && hop == index + 1)
    {
      r := Act();
      if !r.Done? { return; }
      r := Act();
      if !r.Done? { return; }
      var healthy;
      r, healthy := ProveCandidate(index);
      if r.Crashed? { return; }
      if !healthy {
        r := RecordHealthFailure(index);
        return;
      }
      r := RecordHop(index);
    }

    /** One hop; `healthy` repeats only the readiness proof of a last hop that is already healthy. */
    method ApplyHop(index: nat, healthy: bool) returns (r: Report)
      requires Valid() && index < route.length && PositionOk(phase, hop, route)
      requires if healthy then phase.HopHealthy? && hop == route.length == index + 1 else hop == index
      modifies this`phase, this`hop, this`db, this`fenced, this`asked
      ensures Valid() && Forward(old(db), db, route)
      ensures !phase.Complete? && (r.Done? ==> phase.HopHealthy? && hop == index + 1)
      ensures r.Done? ==> Open(old(db), route) && Open(db, route)
      ensures Willing() && Open(old(db), route) ==> r.Done?
    {
      r := Act();
      if !r.Done? { return; }
      if !healthy {
        var migrate;
        r, migrate := Disposition(index);
        if !r.Done? { return; }
        if migrate {
          r := MigrateHop(index);
          if !r.Done? { return; }
        }
      }
      ghost var migrated := db;
      r := CheckHop(index);
      ForwardTransitive(old(db), migrated, db, route);
    }

    method Finish() returns (r: Report, completed: bool)
      requires Valid() && phase.HopHealthy? && hop == route.length
      modifies this`phase, this`hop, this`asked
      ensures Valid() && (r.Done? ==> completed) && (completed ==> phase.Complete?)
      ensures Willing() ==> r.Done?
    {
      completed := false;
      r := Act();
      if !r.Done? { return; }
      r := Act();
      if !r.Done? { return; }
      r := WriteJournal(Complete, route.length);
      if !r.Done? { return; }
      completed := true;
      r := Act();
    }

    /** All hops from `start` on, and completion. */
    method ApplyHops(start: nat, alreadyHealthy: bool) returns (r: Report, completed: bool)
      requires Valid() && PositionOk(phase, hop, route)
      requires if alreadyHealthy then phase.HopHealthy? && hop == route.length == start + 1 else start == hop
      modifies this`phase, this`hop, this`db, this`fenced, this`asked
      ensures Valid() && Forward(old(db), db, route)
      ensures (r.Done? ==> completed) && (completed ==> phase.Complete? && Open(old(db), route))
      ensures Willing() && Open(old(db), route) ==> r.Done?
    {
      var index, healthy := start, alreadyHealthy;
      while index < route.length
        invariant index <= route.length && Valid() && Forward(old(db), db, route)
        invariant PositionOk(phase, hop, route)
        invariant if healthy then phase.HopHealthy? && hop == route.length == index + 1 else hop == index
        invariant db == old(db) || (Open(old(db), route) && Open(db, route))
        invariant index == route.length ==> Open(old(db), route)
      {
        ghost var before := db;
        r := ApplyHop(index, healthy);
        ForwardTransitive(old(db), before, db, route);
        if !r.Done? { return r, false; }
        index, healthy := index + 1, false;
      }
      r, completed := Finish();
    }

    /**
     One run of the upgrade from whatever is durable. Journal and database stay
     aligned however it ends; an error before completion ends with the fence; a
     journal that requires a restore, or is complete, is never left; a run can
     complete exactly from a recoverable state, and does when nothing fails.
     */
    method Apply() returns (r: Report, completed: bool)
      requires Valid()
      modifies this`phase, this`hop, this`db, this`fenced, this`asked
      ensures Valid() && Forward(old(db), db, route)
      ensures r.Failed? && !completed ==> fenced
      ensures r.Done? ==> completed
      ensures completed ==> phase.Complete? && Recoverable(old(phase), old(db), route)
      ensures Willing() && Recoverable(old(phase), old(db), route) ==> r.Done?
      ensures old(phase).RestoreRequiredPhase? || old(phase).Complete? ==>
                !r.Done? && phase == old(phase) && hop == old(hop) && db == old(db)
    {
      r, completed := Reconcile();
      if r.Failed? && !completed {
        var fence := FenceAndStop();
        if fence.Crashed? { r := Crashed; }
      }
    }

    method Reconcile() returns (r: Report, completed: bool)
      requires Valid()
      modifies this`phase, this`hop, this`db, this`fenced, this`asked
      ensures Valid() && Forward(old(db), db, route)
      ensures r.Done? ==> completed
      ensures completed ==> phase.Complete? && Recoverable(old(phase), old(db), route)
      ensures Willing() && Recoverable(old(phase), old(db), route) ==> r.Done?
      ensures old(phase).RestoreRequiredPhase? || old(phase).Complete? ==>
                !r.Done? && !completed && phase == old(phase) && hop == old(hop) && db == old(db)
    {
      if !PositionOk(phase, hop, route) { return Failed, false; }
      var alreadyHealthy := phase.HopHealthy? && hop == route.length;
      if phase.HopHealthy? {
        var c;
        r, c := Control();
        if !r.Done? { return r, false; }
        if c.None? || !HealthyMatches(c.value, route, hop - 1) { return Failed, false; }
      }
      r, completed := ApplyHops(if alreadyHealthy then hop - 1 else hop, alreadyHealthy);
    }

    /** Any number of runs, each stopped anywhere: still aligned, never backwards, and done only when the database is. */
    method Retry(times: nat) returns (completed: bool)
      requires Valid()
      modifies this`phase, this`hop, this`db, this`fenced, this`asked
      ensures Valid() && Forward(old(db), db, route)
      ensures completed ==> db.schemas == route.length && db.writes == Hops(route.length)
      ensures completed ==> HealthyMatches(db.control.value, route, route.length - 1)
    {
      completed := false;
      for i := 0 to times
        invariant Valid() && Forward(old(db), db, route)
      {
        var r;
        ghost var before := db;
        r, completed := Apply();
        ForwardTransitive(old(db), before, db, route);
        if completed { return; }
      }
    }
  }
}
