/**
 One synchronisation as the sequence of durable steps it takes. A crash, a
 journal error or a refused gate stops the sequence after any step; the next
 attempt starts over from what is durable.
 */
module SyncScript {
  import opened Common
  import opened Ledger

  /** Everything durable about one provider name: its ledger row and its remote value. */
  datatype Cell = Cell(entry: Option<Entry>, value: Option<string>)

  datatype Durable = Durable(ledger: map<Key, Entry>, remote: map<Key, string>)

  datatype Op =
    | Reserve(key: Key, name: string)
    | Gate(key: Key)
    | Prepare(key: Key, prior: LedgerState)
    | Put(key: Key, value: string)
    | Finish(key: Key, completion: Completion)
    | Refuse(key: Key)
    | ReleaseReservation(key: Key)
    | Remove(key: Key)

  // ---- Durable steps ---------------------------------------------------------------

  function ApplyCell(c: Cell, op: Op): Cell {
    match op
    case Reserve(key, name) => if c.entry.None? then c.(entry := Some(Entry(key.surface, name, Reserved, false))) else c
    case Gate(_) => c
    case Prepare(_, prior) =>
      if prior.Reserved? && c.entry.Some? && c.entry.value.state.Reserved?
      then c.(entry := Some(c.entry.value.(state := Dispatched))) else c
    case Put(_, value) => c.(value := Some(value))
    case Finish(_, completion) =>
      if !ValidateCompletion(completion) then c
      else if completion.releaseLedger then c.(entry := None)
      else if c.entry.Some? then c.(entry := Some(c.entry.value.(state := completion.state.value, missing := completion.missing))) else c
    case Refuse(_) => DropReservation(c)
    case ReleaseReservation(_) => DropReservation(c)
    case Remove(_) => c.(value := None)
  }

  function DropReservation(c: Cell): Cell {
    if c.entry.Some? && c.entry.value.state.Reserved? then c.(entry := None) else c
  }

  function CellOf(d: Durable, k: Key): Cell {
    Cell(if k in d.ledger then Some(d.ledger[k]) else None, if k in d.remote then Some(d.remote[k]) else None)
  }

  function SetCell(d: Durable, k: Key, c: Cell): Durable {
    Durable(if c.entry.Some? then d.ledger[k := c.entry.value] else d.ledger - {k},
            if c.value.Some? then d.remote[k := c.value.value] else d.remote - {k})
  }

  function Apply(d: Durable, op: Op): Durable {
    SetCell(d, op.key, ApplyCell(CellOf(d, op.key), op))
  }

  function Exec(d: Durable, ops: seq<Op>): Durable {
    if ops == [] then d else Apply(Exec(d, ops[..|ops| - 1]), ops[|ops| - 1])
  }

  function ExecCell(c: Cell, ops: seq<Op>): Cell {
    if ops == [] then c else ApplyCell(ExecCell(c, ops[..|ops| - 1]), ops[|ops| - 1])
  }

  // ---- The steps of one sync ----------------------------------------------------------

  /** The name is taken by somebody else: present, and not ours to overwrite. */
  predicate Foreign(c: Cell) {
    c.value.Some? && (c.entry.None? || c.entry.value.state.Reserved?)
  }

  function RowOps(c: Cell, row: DesiredRow): seq<Op> {
    var k := RowKey(row);
    var state := if c.entry.Some? then c.entry.value.state else Reserved;
    (if c.entry.None? then [Reserve(k, row.name)] else []) +
    (if Foreign(c) then [Refuse(k)] else [Gate(k), Prepare(k, state), Put(k, row.value), Finish(k, OWNED)])
  }

  function PruneOps(e: Entry): seq<Op> {
    var k := EntryKey(e);
    [Gate(k), Prepare(k, e.state), Remove(k), Finish(k, RELEASED)]
  }

  datatype Unit = Unit(key: Key, ops: seq<Op>)

  predicate Refused(d: Durable, row: DesiredRow, completed: set<Key>) {
    RowKey(row) !in completed && Foreign(CellOf(d, RowKey(row)))
  }

  function RowUnit(d: Durable, row: DesiredRow, completed: set<Key>): Unit {
    Unit(RowKey(row), if RowKey(row) in completed then [] else RowOps(CellOf(d, RowKey(row)), row))
  }

  /** The desired rows in order, cut off behind the first conflict. */
  function DesiredUnits(d: Durable, rows: seq<DesiredRow>, completed: set<Key>): seq<Unit> {
    if rows == [] then []
    else if Refused(d, rows[0], completed) then [RowUnit(d, rows[0], completed)]
    else [RowUnit(d, rows[0], completed)] + DesiredUnits(d, rows[1..], completed)
  }

  predicate Conflicted(d: Durable, rows: seq<DesiredRow>, completed: set<Key>) {
    exists row | row in rows :: Refused(d, row, completed)
  }

  function ReservationUnits(rows: seq<Entry>): seq<Unit> {
    seq(|rows|, i requires 0 <= i < |rows| => Unit(EntryKey(rows[i]), [ReleaseReservation(EntryKey(rows[i]))]))
  }

  function PruneUnits(rows: seq<Entry>): seq<Unit> {
    seq(|rows|, i requires 0 <= i < |rows| => Unit(EntryKey(rows[i]), PruneOps(rows[i])))
  }

  /** What one sync works on: desired rows, names already completed, and the two left-over lists. */
  datatype Work = Work(desired: seq<DesiredRow>, completed: set<Key>, reservations: seq<Entry>, prunes: seq<Entry>)

  function Units(d: Durable, w: Work): seq<Unit> {
    DesiredUnits(d, w.desired, w.completed) +
    (if Conflicted(d, w.desired, w.completed) then [] else ReservationUnits(w.reservations) + PruneUnits(w.prunes))
  }

  function Flatten(units: seq<Unit>): seq<Op> {
    if units == [] then [] else units[0].ops + Flatten(units[1..])
  }

  function Script(d: Durable, w: Work): seq<Op> {
    Flatten(Units(d, w))
  }

  ghost predicate Lists(d: Durable, w: Work) {
    && WellKeyed(d.ledger)
    && DistinctKeys(w.desired)
    && LeftOver(w.reservations, Keys(w.desired), d.ledger, true)
    && LeftOver(w.prunes, Keys(w.desired), d.ledger, false)
  }

  /** The work Sync derives from a durable state; names it may skip hold what is desired. */
  ghost predicate WorkOf(d: Durable, w: Work) {
    && Lists(d, w)
    && (forall row | row in w.desired && RowKey(row) in w.completed :: Delivered(CellOf(d, RowKey(row)), row))
  }

  predicate Delivered(c: Cell, row: DesiredRow) {
    c.entry.Some? && c.entry.value.state.Owned? && !c.entry.value.missing && c.value == Some(row.value)
  }

  // ---- One name at a time -----------------------------------------------------------------

  function Only(ops: seq<Op>, k: Key): seq<Op> {
    if ops == [] then []
    else Only(ops[..|ops| - 1], k) + (if ops[|ops| - 1].key == k then [ops[|ops| - 1]] else [])
  }

  lemma OnlyLast(ops: seq<Op>, k: Key)
    requires ops != []
    ensures var front, last := Only(ops[..|ops| - 1], k), ops[|ops| - 1];
            Only(ops, k) == if last.key == k then front + [last] else front
  {}

  lemma ExecCellLast(c: Cell, ops: seq<Op>, op: Op)
    ensures ExecCell(c, ops + [op]) == ApplyCell(ExecCell(c, ops), op)
  {
    assert (ops + [op])[..|ops|] == ops;
  }

  lemma ApplyAt(d: Durable, op: Op, k: Key)
    ensures CellOf(Apply(d, op), k) == if op.key == k then ApplyCell(CellOf(d, k), op) else CellOf(d, k)
  {}

  /** Steps on other names leave a name alone. */
  lemma {:induction false} ExecAt(d: Durable, ops: seq<Op>, k: Key)
    ensures CellOf(Exec(d, ops), k) == ExecCell(CellOf(d, k), Only(ops, k))
  {
    if ops != [] {
      var front, last := ops[..|ops| - 1], ops[|ops| - 1];
      ExecAt(d, front, k);
      ApplyAt(Exec(d, front), last, k);
      OnlyLast(ops, k);
      ExecCellLast(CellOf(d, k), Only(front, k), last);
    }
  }

  lemma {:induction false} OnlyConcat(a: seq<Op>, b: seq<Op>, k: Key)
    ensures Only(a + b, k) == Only(a, k) + Only(b, k)
  {
    if b == [] {
      assert a + b == a;
    } else {
      OnlyConcat(a, b[..|b| - 1], k);
      assert (a + b)[..|a + b| - 1] == a + b[..|b| - 1];
    }
  }

  lemma {:induction false} OnlyUniform(ops: seq<Op>, key: Key, k: Key)
    requires forall op | op in ops :: op.key == key
    ensures Only(ops, k) == if k == key then ops else []
  {
    if ops != [] {
      OnlyUniform(ops[..|ops| - 1], key, k);
      assert ops == ops[..|ops| - 1] + [ops[|ops| - 1]];
    }
  }

  ghost predicate UnitsOk(units: seq<Unit>) {
    && (forall u, op | u in units && op in u.ops :: op.key == u.key)
    && (forall i, j | 0 <= i < j < |units| :: units[i].key != units[j].key)
  }

  /** The steps of a name inside a prefix of the whole script. */
  ghost function Share(units: seq<Unit>, n: nat, k: Key): seq<Op> {
    var ops := Flatten(units);
    Only(ops[..if n <= |ops| then n else |ops|], k)
  }

  lemma {:induction false} OnlyAbsent(ops: seq<Op>, k: Key)
    requires forall op | op in ops :: op.key != k
    ensures Only(ops, k) == []
  {
    if ops != [] { OnlyAbsent(ops[..|ops| - 1], k); }
  }

  lemma {:induction false} FlattenKeys(units: seq<Unit>)
    requires UnitsOk(units)
    ensures forall op | op in Flatten(units) :: exists u | u in units :: u.key == op.key
  {
    if units != [] {
      assert UnitsOk(units[1..]);
      FlattenKeys(units[1..]);
      forall op | op in Flatten(units) ensures exists u | u in units :: u.key == op.key {
        if op in units[0].ops { assert units[0] in units && units[0].key == op.key; }
        else { assert op in Flatten(units[1..]); var u :| u in units[1..] && u.key == op.key; assert u in units; }
      }
    }
  }

  /** How far a script stopped after `n` steps got with its first unit. */
  function HeadLen(units: seq<Unit>, n: nat): nat
    requires units != []
  {
    if n <= |units[0].ops| then n else |units[0].ops|
  }

  lemma PrefixSplits(head: seq<Op>, rest: seq<Op>, n: nat)
    requires n <= |head + rest|
    ensures (head + rest)[..n] == if n <= |head| then head[..n] else head + rest[..n - |head|]
  {}

  lemma ShareSplits(units: seq<Unit>, n: nat, k: Key)
    requires units != []
    ensures var h := HeadLen(units, n);
            Share(units, n, k) == Only(units[0].ops[..h], k) + Share(units[1..], n - h, k)
  {
    var head, rest := units[0].ops, Flatten(units[1..]);
    var h, n' := HeadLen(units, n), if n <= |head + rest| then n else |head + rest|;
    PrefixSplits(head, rest, n');
    if n <= |head| {
      assert Share(units[1..], n - h, k) == [];
    } else {
      assert head[..h] == head;
      OnlyConcat(head, rest[..n' - h], k);
    }
  }

  lemma ShareCons(units: seq<Unit>, n: nat, k: Key)
    requires UnitsOk(units) && units != []
    ensures var h := HeadLen(units, n);
            Share(units, n, k) == if k == units[0].key then units[0].ops[..h] else Share(units[1..], n - h, k)
  {
    var h := HeadLen(units, n);
    ShareSplits(units, n, k);
    OnlyUniform(units[0].ops[..h], units[0].key, k);
    if k == units[0].key {
      assert UnitsOk(units[1..]);
      ShareOfOthers(units[1..], n - h, k);
    }
  }

  lemma ShareOfNothing(units: seq<Unit>, k: Key)
    ensures Share(units, 0, k) == []
  {}

  lemma ShareHead(units: seq<Unit>, n: nat)
    requires UnitsOk(units) && units != []
    ensures Share(units, n, units[0].key) == units[0].ops[..HeadLen(units, n)]
  {
    ShareCons(units, n, units[0].key);
  }

  lemma ShareRest(units: seq<Unit>, n: nat, q: nat)
    requires UnitsOk(units) && 0 < q < |units|
    ensures UnitsOk(units[1..]) && units[1..][q - 1] == units[q]
    ensures Share(units, n, units[q].key) == Share(units[1..], n - HeadLen(units, n), units[q].key)
  {
    ShareCons(units, n, units[q].key);
  }

  /** A stopped script has run a first part of each unit. */
  lemma {:induction false} ShareOf(units: seq<Unit>, n: nat, i: nat) returns (m: nat)
    requires UnitsOk(units) && i < |units|
    ensures m <= |units[i].ops| && Share(units, n, units[i].key) == units[i].ops[..m]
    ensures n >= |Flatten(units)| ==> m == |units[i].ops|
  {
    if i == 0 {
      ShareHead(units, n);
      m := HeadLen(units, n);
    } else {
      ShareRest(units, n, i);
      m := ShareOf(units[1..], n - HeadLen(units, n), i - 1);
    }
  }

  /** It has touched a later unit only after finishing every earlier one. */
  lemma {:induction false} ShareOrder(units: seq<Unit>, n: nat, i: nat, j: nat)
    requires UnitsOk(units) && i < j < |units| && Share(units, n, units[j].key) != []
    ensures Share(units, n, units[i].key) == units[i].ops
  {
    var h := HeadLen(units, n);
    ShareRest(units, n, j);
    if i == 0 {
      ShareHead(units, n);
      if n == h { ShareOfNothing(units[1..], units[j].key); }
    } else {
      ShareRest(units, n, i);
      ShareOrder(units[1..], n - h, i - 1, j - 1);
    }
  }

  lemma ShareOfOthers(units: seq<Unit>, n: nat, k: Key)
    requires UnitsOk(units) && forall u | u in units :: u.key != k
    ensures Share(units, n, k) == []
  {
    FlattenKeys(units);
    var ops := Flatten(units);
    OnlyAbsent(ops[..if n <= |ops| then n else |ops|], k);
  }

  // ---- The units of a sync -------------------------------------------------------------------

  /** The units are those of the first rows: of all of them, or up to the first conflict. */
  ghost predicate UnitsOfRows(units: seq<Unit>, d: Durable, rows: seq<DesiredRow>, completed: set<Key>) {
    && |units| <= |rows|
    && (forall i | 0 <= i < |units| :: units[i] == RowUnit(d, rows[i], completed))
    && (!Conflicted(d, rows, completed) ==> |units| == |rows|)
    && (forall i | 0 <= i < |units| - 1 :: !Refused(d, rows[i], completed))
    && (Conflicted(d, rows, completed) ==> units != [] && Refused(d, rows[|units| - 1], completed))
  }

  lemma ConflictedLater(d: Durable, row: DesiredRow, rest: seq<DesiredRow>, completed: set<Key>)
    requires !Refused(d, row, completed)
    ensures Conflicted(d, [row] + rest, completed) <==> Conflicted(d, rest, completed)
  {
    assert forall r | r in rest :: r in [row] + rest;
  }

  lemma UnitsOfRowsCons(units: seq<Unit>, d: Durable, row: DesiredRow, rest: seq<DesiredRow>, completed: set<Key>)
    requires UnitsOfRows(units, d, rest, completed) && !Refused(d, row, completed)
    ensures UnitsOfRows([RowUnit(d, row, completed)] + units, d, [row] + rest, completed)
  {
    var all, rows := [RowUnit(d, row, completed)] + units, [row] + rest;
    ConflictedLater(d, row, rest, completed);
    forall i | 0 <= i < |all| ensures all[i] == RowUnit(d, rows[i], completed) {
      if i > 0 { assert all[i] == units[i - 1] && rows[i] == rest[i - 1]; }
    }
    forall i | 0 <= i < |all| - 1 ensures !Refused(d, rows[i], completed) {
      if i > 0 { assert rows[i] == rest[i - 1]; }
    }
  }

  lemma {:induction false} DesiredUnitsAt(d: Durable, rows: seq<DesiredRow>, completed: set<Key>)
    ensures UnitsOfRows(DesiredUnits(d, rows, completed), d, rows, completed)
  {
    if rows != [] && !Refused(d, rows[0], completed) {
      DesiredUnitsAt(d, rows[1..], completed);
      UnitsOfRowsCons(DesiredUnits(d, rows[1..], completed), d, rows[0], rows[1..], completed);
      assert rows == [rows[0]] + rows[1..];
    }
  }

  lemma UnitsConcat(a: seq<Unit>, b: seq<Unit>)
    requires UnitsOk(a) && UnitsOk(b) && forall u, v | u in a && v in b :: u.key != v.key
    ensures UnitsOk(a + b)
  {
    forall i, j | 0 <= i < j < |a + b| ensures (a + b)[i].key != (a + b)[j].key {
      if i < |a| <= j { assert a[i] in a && b[j - |a|] in b; }
    }
  }

  lemma RowUnitOk(d: Durable, row: DesiredRow, completed: set<Key>)
    ensures forall op | op in RowUnit(d, row, completed).ops :: op.key == RowKey(row)
  {}

  lemma DesiredUnitsOk(d: Durable, rows: seq<DesiredRow>, completed: set<Key>)
    requires DistinctKeys(rows)
    ensures UnitsOk(DesiredUnits(d, rows, completed))
    ensures forall u | u in DesiredUnits(d, rows, completed) :: u.key in Keys(rows)
  {
    DesiredUnitsAt(d, rows, completed);
    var units := DesiredUnits(d, rows, completed);
    forall u | u in units ensures u.key in Keys(rows) && forall op | op in u.ops :: op.key == u.key {
      var i :| 0 <= i < |units| && units[i] == u;
      assert rows[i] in rows;
      RowUnitOk(d, rows[i], completed);
    }
    forall i, j | 0 <= i < j < |units| ensures units[i].key != units[j].key {
      assert units[i].key == RowKey(rows[i]) && units[j].key == RowKey(rows[j]);
    }
  }

  lemma LeftOverUnitsOk(d: Durable, w: Work)
    requires Lists(d, w)
    ensures UnitsOk(ReservationUnits(w.reservations)) && UnitsOk(PruneUnits(w.prunes))
    ensures forall u | u in ReservationUnits(w.reservations) ::
              u.key !in Keys(w.desired) && u.key in d.ledger && d.ledger[u.key].state.Reserved?
    ensures forall u | u in PruneUnits(w.prunes) ::
              u.key !in Keys(w.desired) && u.key in d.ledger && !d.ledger[u.key].state.Reserved?
  {
    UnitsOfEntries(w.reservations, ReservationUnits(w.reservations));
    UnitsOfEntries(w.prunes, PruneUnits(w.prunes));
  }

  lemma UnitsOfEntries(rows: seq<Entry>, units: seq<Unit>)
    requires DistinctBy(rows, EntryKey) && |units| == |rows|
    requires forall i | 0 <= i < |units| :: units[i].key == EntryKey(rows[i]) && forall op | op in units[i].ops :: op.key == units[i].key
    ensures UnitsOk(units) && forall u | u in units :: exists e | e in rows :: u.key == EntryKey(e)
  {
    forall u | u in units ensures exists e | e in rows :: u.key == EntryKey(e) {
      var i :| 0 <= i < |units| && units[i] == u;
      assert rows[i] in rows;
    }
    forall i, j | 0 <= i < j < |units| ensures units[i].key != units[j].key {
      assert EntryKey(rows[i]) != EntryKey(rows[j]);
    }
  }

  lemma UnitsAreOk(d: Durable, w: Work)
    requires Lists(d, w)
    ensures UnitsOk(Units(d, w))
  {
    DesiredUnitsOk(d, w.desired, w.completed);
    LeftOverUnitsOk(d, w);
    UnitsConcat(ReservationUnits(w.reservations), PruneUnits(w.prunes));
    UnitsConcat(DesiredUnits(d, w.desired, w.completed), ReservationUnits(w.reservations) + PruneUnits(w.prunes));
  }
}
