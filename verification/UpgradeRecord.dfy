/**
 The database side of an upgrade route: the durable control record, the schemas
 that are physically in place, and the migration child that moves both.
 A route of `length` hops leads through levels 0..length; hop `i` leads from
 level `i` to level `i + 1`. Digests and identities are opaque, so a route's
 digest stands for the whole route.
 */
module UpgradeRecord {
  import opened Common

  datatype DbPhase = Prepared | SchemaWriteStarted | SchemaApplied | Healthy | RestoreRequired

  datatype Operation = Operation(route: nat, hop: nat, length: nat, phase: DbPhase, invalidated: bool)

  datatype Control = Control(op: Operation, applied: nat, maintenance: bool)

  /** `schemas` levels are fully in place, `partial` the next one halfway; `writes` lists the hops whose migrations were begun. */
  datatype Database = Database(control: Option<Control>, schemas: nat, partial: bool, writes: seq<nat>)

  datatype Route = Route(digest: nat, length: nat, legacy: bool)

  // ---- Control record transitions --------------------------------------------------------------

  function Prepare(c: Control, route: Route, hop: nat): Option<Control> {
    if !c.op.phase.Healthy? || c.applied != hop then None
    else if (if c.maintenance then c.op.route == route.digest && hop == c.op.hop + 1 else hop == 0)
    then Some(Control(Operation(route.digest, hop, route.length, Prepared, false), c.applied, true))
    else None
  }

  predicate Legal(from: DbPhase, to: DbPhase) {
    match to
    case SchemaWriteStarted => from.Prepared?
    case SchemaApplied => from.SchemaWriteStarted?
    case Healthy => from.SchemaApplied?
    case RestoreRequired => from.Prepared? || from.SchemaWriteStarted? || from.SchemaApplied?
    case Prepared => false
  }

  function Advance(c: Control, phase: DbPhase): Option<Control> {
    if c.op.invalidated || !Legal(c.op.phase, phase) then None
    else
      var next := c.(op := c.op.(phase := phase));
      Some(if phase.Healthy? then next.(applied := c.op.hop + 1, maintenance := c.op.hop + 1 < c.op.length) else next)
  }

  // ---- Where a database stands on a route ------------------------------------------------------------

  predicate Ours(db: Database, route: Route) {
    db.control.Some? && db.control.value.op.route == route.digest
  }

  /** The database holds hop `i` of the route. */
  predicate On(db: Database, route: Route, i: nat) {
    Ours(db, route) && db.control.value.op.hop == i
  }

  /** Every hop before `i` is finished and hop `i` has not begun. */
  predicate Before(db: Database, route: Route, i: nat) {
    if i == 0 then !Ours(db, route) else On(db, route, i - 1) && db.control.value.op.phase.Healthy?
  }

  /** Hop `i`'s schema is in place, whatever became of its health. */
  predicate Past(db: Database, route: Route, i: nat) {
    On(db, route, i) && !db.control.value.op.phase.Prepared? && !db.control.value.op.phase.SchemaWriteStarted?
  }

  function Hops(n: nat): seq<nat> {
    seq(n, i => i)
  }

  ghost predicate Untouched(db: Database, route: Route) {
    db.schemas == 0 && !db.partial && db.writes == [] && (db.control.None? ==> route.legacy)
  }

  ghost predicate Consistent(db: Database, route: Route) {
    if !Ours(db, route) then Untouched(db, route) else
    var c := db.control.value;
    var i := c.op.hop;
    && i < c.op.length == route.length && !c.op.invalidated
    && c.applied == (if c.op.phase.Healthy? then i + 1 else i)
    && c.maintenance == (!c.op.phase.Healthy? || i + 1 < route.length)
    && match c.op.phase {
         case Prepared => db.schemas == i && !db.partial && db.writes == Hops(i)
         case SchemaWriteStarted =>
           || (db.schemas == i && !db.partial && db.writes == Hops(i))
           || (db.schemas == i && db.partial && db.writes == Hops(i + 1))
           || (db.schemas == i + 1 && !db.partial && db.writes == Hops(i + 1))
         case _ => db.schemas == i + 1 && !db.partial && db.writes == Hops(i + 1)
       }
  }

  /** Later steps of a route never take back an earlier one. */
  ghost predicate Forward(a: Database, b: Database, route: Route) {
    && a.schemas <= b.schemas && a.writes <= b.writes
    && (Ours(a, route) ==> Ours(b, route) && a.control.value.op.hop <= b.control.value.op.hop)
    && (Ours(a, route) && a.control.value.op.phase.Healthy? && a.control.value.op.hop == b.control.value.op.hop ==> b.control == a.control)
    && (Ours(a, route) && a.control.value.op.phase.RestoreRequired? ==> b.control == a.control)
  }

  lemma ForwardTransitive(a: Database, b: Database, c: Database, route: Route)
    requires Forward(a, b, route) && Forward(b, c, route)
    ensures Forward(a, c, route)
  {}

  // ---- The migration child ------------------------------------------------------------------------------

  datatype ChildStep = Admit | BeginWrite | BeginSql | EndSql | Publish

  /** One durable step of the child that runs hop `i`'s binary; a step that does not apply leaves the database alone. */
  function ChildDo(db: Database, route: Route, i: nat, step: ChildStep): Database {
    match step
    case Admit =>
      if db.control.None? then
        if i == 0 && route.legacy then db.(control := Some(Control(Operation(route.digest, 0, route.length, Prepared, false), 0, true))) else db
      else if On(db, route, i) then db
      else (match Prepare(db.control.value, route, i) case Some(c) => db.(control := Some(c)) case None => db)
    case BeginWrite =>
      if On(db, route, i) && db.control.value.op.phase.Prepared? && db.schemas == i && !db.partial then Moved(db, SchemaWriteStarted) else db
    case BeginSql =>
      if On(db, route, i) && db.control.value.op.phase.SchemaWriteStarted?
      then db.(partial := true, writes := db.writes + [i]) else db
    case EndSql =>
      if On(db, route, i) && db.control.value.op.phase.SchemaWriteStarted? && db.partial
      then db.(partial := false, schemas := i + 1) else db
    case Publish =>
      if On(db, route, i) && db.schemas == i + 1 && !db.partial then Moved(db, SchemaApplied) else db
  }

  function Moved(db: Database, phase: DbPhase): Database {
    if db.control.None? then db
    else match Advance(db.control.value, phase) case Some(c) => db.(control := Some(c)) case None => db
  }

  const CHILD := [Admit, BeginWrite, BeginSql, EndSql, Publish]

  function ChildRun(db: Database, route: Route, i: nat, n: nat): Database
    requires n <= |CHILD|
  {
    if n == 0 then db else ChildDo(ChildRun(db, route, i, n - 1), route, i, CHILD[n - 1])
  }

  /** A child may be started: hop `i` has not begun, or is admitted and nothing is written. */
  predicate Launchable(db: Database, route: Route, i: nat) {
    Before(db, route, i) || (On(db, route, i) && db.control.value.op.phase.Prepared?)
  }

  /** Where a launched child is after `n` steps, unless the database never admitted it. */
  ghost predicate Reached(db: Database, route: Route, i: nat, n: nat) {
    && On(db, route, i)
    && match db.control.value.op.phase {
         case Prepared => n == 1
         case SchemaWriteStarted =>
           if n == 2 then db.schemas == i && !db.partial
           else if n == 3 then db.schemas == i && db.partial
           else n == 4 && db.schemas == i + 1
         case SchemaApplied => n == 5
         case _ => false
       }
  }

  /** A launched child after `n` steps: still not admitted, or as far as those steps go. */
  ghost predicate Launched(db: Database, route: Route, i: nat, n: nat, db': Database) {
    && Consistent(db', route) && Forward(db, db', route)
    && (if n == 0 then db' == db else db' == db || Reached(db', route, i, n))
    && (db' == db && n > 0 ==> !On(db', route, i) || n == 1)
  }

  lemma AdmitIsSafe(db: Database, route: Route, i: nat)
    requires Consistent(db, route) && i < route.length && Launchable(db, route, i)
    ensures Launched(db, route, i, 1, ChildDo(db, route, i, Admit))
  {}

  lemma BeginWriteIsSafe(db: Database, route: Route, i: nat, db': Database)
    requires Consistent(db, route) && i < route.length && Launchable(db, route, i) && Launched(db, route, i, 1, db')
    ensures Launched(db, route, i, 2, ChildDo(db', route, i, BeginWrite))
  {}

  lemma BeginSqlIsSafe(db: Database, route: Route, i: nat, db': Database)
    requires Consistent(db, route) && i < route.length && Launchable(db, route, i) && Launched(db, route, i, 2, db')
    ensures Launched(db, route, i, 3, ChildDo(db', route, i, BeginSql))
  {
    assert Hops(i) + [i] == Hops(i + 1);
  }

  lemma EndSqlIsSafe(db: Database, route: Route, i: nat, db': Database)
    requires Consistent(db, route) && i < route.length && Launchable(db, route, i) && Launched(db, route, i, 3, db')
    ensures Launched(db, route, i, 4, ChildDo(db', route, i, EndSql))
  {}

  lemma PublishIsSafe(db: Database, route: Route, i: nat, db': Database)
    requires Consistent(db, route) && i < route.length && Launchable(db, route, i) && Launched(db, route, i, 4, db')
    ensures Launched(db, route, i, 5, ChildDo(db', route, i, Publish))
  {}

  lemma NextIsSafe(db: Database, route: Route, i: nat, n: nat, db': Database)
    requires Consistent(db, route) && i < route.length && Launchable(db, route, i) && 1 <= n < |CHILD|
    requires Launched(db, route, i, n, db')
    ensures Launched(db, route, i, n + 1, ChildDo(db', route, i, CHILD[n]))
  {
    match n
    case 1 => BeginWriteIsSafe(db, route, i, db');
    case 2 => BeginSqlIsSafe(db, route, i, db');
    case 3 => EndSqlIsSafe(db, route, i, db');
    case 4 => PublishIsSafe(db, route, i, db');
  }

  /** However far a launched child gets, the database stays consistent and only moves forward, into hop `i`. */
  lemma {:induction false} ChildIsSafe(db: Database, route: Route, i: nat, n: nat)
    requires Consistent(db, route) && i < route.length && n <= |CHILD| && Launchable(db, route, i)
    ensures Launched(db, route, i, n, ChildRun(db, route, i, n))
  {
    if n == 1 {
      AdmitIsSafe(db, route, i);
    } else if n > 1 {
      ChildIsSafe(db, route, i, n - 1);
      NextIsSafe(db, route, i, n - 1, ChildRun(db, route, i, n - 1));
    }
  }

  /** Nothing in the record stands in the way of the route: no half-written hop, no required restore, no other unfinished operation. */
  predicate Open(db: Database, route: Route) {
    db.control.None? ||
    var c := db.control.value;
    if c.op.route == route.digest then !c.op.phase.SchemaWriteStarted? && !c.op.phase.RestoreRequired?
    else c.op.phase.Healthy? && !c.op.invalidated && !c.maintenance && c.applied == 0
  }

  /** A child that runs to its end applies its hop exactly when the record is open. */
  lemma ChildEnds(db: Database, route: Route, i: nat)
    requires Consistent(db, route) && i < route.length && Launchable(db, route, i)
    requires db.control.Some? && !Ours(db, route) ==> !db.control.value.op.invalidated
    ensures var db' := ChildRun(db, route, i, |CHILD|);
            (On(db', route, i) && db'.control.value.op.phase.SchemaApplied?) <==> Open(db, route)
  {
    ChildIsSafe(db, route, i, 1);
    ChildIsSafe(db, route, i, |CHILD|);
    assert ChildRun(db, route, i, 1) == ChildDo(ChildRun(db, route, i, 0), route, i, CHILD[0]);
    if On(ChildRun(db, route, i, 1), route, i) {
      ChildStays(db, route, i, |CHILD|);
    } else {
      ChildBlocked(db, route, i, |CHILD|);
    }
  }

  lemma ChildRunsAll(db: Database, route: Route, i: nat)
    ensures ChildRun(db, route, i, |CHILD|) ==
            ChildDo(ChildDo(ChildDo(ChildDo(ChildDo(db, route, i, Admit), route, i, BeginWrite), route, i, BeginSql), route, i, EndSql), route, i, Publish)
  {
    assert ChildRun(db, route, i, 1) == ChildDo(ChildRun(db, route, i, 0), route, i, CHILD[0]);
    assert ChildRun(db, route, i, 3) == ChildDo(ChildDo(ChildRun(db, route, i, 1), route, i, CHILD[1]), route, i, CHILD[2]);
    assert ChildRun(db, route, i, 5) == ChildDo(ChildDo(ChildRun(db, route, i, 3), route, i, CHILD[3]), route, i, CHILD[4]);
  }

  /**
   A child resumed inside a hop whose schema write was started applies the hop
   whatever it finds, by beginning its migrations once more; so each hop was begun
   once exactly when nothing of it had been.
   */
  lemma ResumedChildEnds(db: Database, route: Route, i: nat)
    requires Consistent(db, route) && On(db, route, i) && db.control.value.op.phase.SchemaWriteStarted?
    ensures var db' := ChildRun(db, route, i, |CHILD|);
            && On(db', route, i) && db'.control.value.op.phase.SchemaApplied?
            && db'.schemas == i + 1 && !db'.partial && db'.writes == db.writes + [i] && Forward(db, db', route)
            && (Consistent(db', route) <==> db.schemas == i && !db.partial)
  {
    ChildRunsAll(db, route, i);
    assert Hops(i) + [i] == Hops(i + 1);
    assert |db.writes + [i]| == |db.writes| + 1;
  }

  /** How far a child resumed inside a started schema write has got after `n` steps: it only moves forward, and stays in its hop. */
  ghost predicate Resumed(db: Database, route: Route, i: nat, n: nat, db': Database) {
    && On(db', route, i) && Forward(db, db', route)
    && (n <= 2 ==> db' == db)
    && (n > 2 ==> db'.writes == db.writes + [i])
    && (n == 3 ==> db'.partial && db'.schemas == db.schemas && db'.control == db.control)
    && (n == 4 ==> !db'.partial && db'.schemas == i + 1 && db'.control == db.control)
    && (n == 5 ==> !db'.partial && db'.schemas == i + 1 && db'.control.value.op.phase.SchemaApplied?)
  }

  lemma {:induction false} ResumedChildIsSafe(db: Database, route: Route, i: nat, n: nat)
    requires Consistent(db, route) && On(db, route, i) && db.control.value.op.phase.SchemaWriteStarted? && n <= |CHILD|
    ensures Resumed(db, route, i, n, ChildRun(db, route, i, n))
  {
    if n > 0 {
      ResumedChildIsSafe(db, route, i, n - 1);
      ResumedStep(db, route, i, n - 1, ChildRun(db, route, i, n - 1));
    }
  }

  lemma ResumedStep(db: Database, route: Route, i: nat, n: nat, db': Database)
    requires Consistent(db, route) && On(db, route, i) && db.control.value.op.phase.SchemaWriteStarted? && n < |CHILD|
    requires Resumed(db, route, i, n, db')
    ensures Resumed(db, route, i, n + 1, ChildDo(db', route, i, CHILD[n]))
  {}

  lemma {:induction false} ChildStays(db: Database, route: Route, i: nat, n: nat)
    requires 1 <= n <= |CHILD| && On(ChildRun(db, route, i, 1), route, i)
    ensures On(ChildRun(db, route, i, n), route, i)
  {
    if n > 1 { ChildStays(db, route, i, n - 1); }
  }

  lemma {:induction false} ChildBlocked(db: Database, route: Route, i: nat, n: nat)
    requires 1 <= n <= |CHILD| && !On(ChildRun(db, route, i, 1), route, i)
    ensures !On(ChildRun(db, route, i, n), route, i)
  {
    if n > 1 { ChildBlocked(db, route, i, n - 1); }
  }

  /** A record only moves to health or to a required restore by a legal transition. */
  lemma MoveIsSafe(db: Database, route: Route, i: nat, phase: DbPhase)
    requires Consistent(db, route) && Past(db, route, i) && (phase.Healthy? || phase.RestoreRequired?)
    ensures var db' := Moved(db, phase);
            Consistent(db', route) && Forward(db, db', route) && Past(db', route, i)
  {}
}
