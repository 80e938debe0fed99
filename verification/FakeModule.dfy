/**
 The in-memory provider module: a target whose journal and name store can stop
 answering before any durable step, and the Sync and Plan that work on it.
 */
module FakeModule {
  import opened Common
  import opened Sorting
  import opened Ledger
  import opened SyncScript
  import opened SyncConvergence

  datatype Ending = Rejected | Interrupted | Refusal | Synchronized

  function Set<K, V>(m: map<K, V>, k: K, value: Option<V>): map<K, V> {
    if value.Some? then m[k := value.value] else m - {k}
  }

  // ---- What a run reports ---------------------------------------------------------------------

  predicate Settled(c: Cell) {
    c.entry.Some? && !c.entry.value.state.Reserved? && !c.entry.value.missing
  }

  function RowChange(c: Cell, row: DesiredRow): Change {
    Change(row.surface, row.name, if Settled(c) then Update else Create)
  }

  function RowChanges(d: Durable, rows: seq<DesiredRow>, completed: set<Key>): seq<Change> {
    if rows == [] then []
    else RowChanges(d, rows[..|rows| - 1], completed) +
         (var row := rows[|rows| - 1];
          if RowKey(row) in completed then [] else [RowChange(CellOf(d, RowKey(row)), row)])
  }

  function Deletion(e: Entry): Change {
    Change(e.surface, e.name, Delete)
  }

  function Deletions(prunes: seq<Entry>): seq<Change> {
    Map(Deletion, prunes)
  }

  lemma DeletionsGrow(rows: seq<Entry>, i: nat)
    requires i < |rows|
    ensures Deletions(rows[..i + 1]) == Deletions(rows[..i]) + [Deletion(rows[i])] && Deletions(rows[..i + 1]) <= Deletions(rows)
  {
    assert Deletions(rows[..i + 1]) == Deletions(rows)[..i + 1];
  }

  /** Reserving a free name adds its row and writes nothing at the provider. */
  lemma ReserveIsFresh(d: Durable, key: Key, name: string)
    requires key !in d.ledger
    ensures Apply(d, Reserve(key, name)) == Durable(d.ledger[key := Entry(key.surface, name, Reserved, false)], d.remote)
  {
    assert key in d.remote ==> d.remote[key := d.remote[key]] == d.remote;
    assert key !in d.remote ==> d.remote - {key} == d.remote;
  }

  // ---- Scripts run in order ---------------------------------------------------------------------

  lemma Associates(a: seq<Op>, b: seq<Op>, c: seq<Op>)
    ensures a + (b + c) == a + b + c
  {}

  lemma {:induction false} FlattenSnoc(units: seq<Unit>, u: Unit)
    ensures Flatten(units + [u]) == Flatten(units) + u.ops
  {
    if units == [] {
      assert units + [u] == [u];
    } else {
      FlattenSnoc(units[1..], u);
      assert (units + [u])[1..] == units[1..] + [u] && (units + [u])[0] == units[0];
      Associates(units[0].ops, Flatten(units[1..]), u.ops);
    }
  }

  lemma {:induction false} FlattenConcat(a: seq<Unit>, b: seq<Unit>)
    ensures Flatten(a + b) == Flatten(a) + Flatten(b)
  {
    if a == [] {
      assert a + b == b;
    } else {
      FlattenConcat(a[1..], b);
      assert (a + b)[1..] == a[1..] + b && (a + b)[0] == a[0];
      Associates(a[0].ops, Flatten(a[1..]), Flatten(b));
    }
  }

  lemma FlattenCut(units: seq<Unit>, i: nat)
    requires i <= |units|
    ensures Flatten(units) == Flatten(units[..i]) + Flatten(units[i..])
  {
    assert units == units[..i] + units[i..];
    FlattenConcat(units[..i], units[i..]);
  }

  lemma FlattenGrow(units: seq<Unit>, i: nat)
    requires i < |units|
    ensures Flatten(units[..i + 1]) == Flatten(units[..i]) + units[i].ops
  {
    assert units[..i + 1] == units[..i] + [units[i]];
    FlattenSnoc(units[..i], units[i]);
  }

  lemma FlattenSplit(units: seq<Unit>, i: nat)
    requires i < |units|
    ensures Flatten(units) == Flatten(units[..i]) + units[i].ops + Flatten(units[i + 1..])
  {
    FlattenCut(units, i + 1);
    FlattenGrow(units, i);
  }

  /** The steps before unit `i` and `m` more are what a script stopped after that many steps ran. */
  lemma StopsInUnit(units: seq<Unit>, i: nat, m: nat)
    requires i < |units| && m <= |units[i].ops|
    ensures |Flatten(units[..i])| + m <= |Flatten(units)|
    ensures Upto(Flatten(units), |Flatten(units[..i])| + m) == Flatten(units[..i]) + units[i].ops[..m]
  {
    FlattenSplit(units, i);
    CutInside(Flatten(units[..i]), units[i].ops, Flatten(units[i + 1..]), m);
  }

  lemma CutInside(a: seq<Op>, b: seq<Op>, c: seq<Op>, m: nat)
    requires m <= |b|
    ensures |a| + m <= |a + b + c| && Upto(a + b + c, |a| + m) == a + b[..m]
  {}

  lemma UptoAll(ops: seq<Op>, n: nat)
    requires n >= |ops|
    ensures Upto(ops, n) == ops
  {}

  lemma EarlierUnitsElsewhere(units: seq<Unit>, i: nat)
    requires UnitsOk(units) && i < |units|
    ensures forall op | op in Flatten(units[..i]) :: op.key != units[i].key
  {
    assert UnitsOk(units[..i]);
    FlattenKeys(units[..i]);
    forall op | op in Flatten(units[..i]) ensures op.key != units[i].key {
      var u :| u in units[..i] && u.key == op.key;
    }
  }

  class Target {
    var ledger: map<Key, Entry>
    // The provider's secrets and variables, by surface and upper-case name.
    var names: map<Key, string>
    // Durable steps left before the target stops answering.
    var budget: nat
    ghost var start: Durable
    ghost var trace: seq<Op>

    ghost function State(): Durable
      reads this
    {
      Durable(ledger, names)
    }

    ghost predicate Valid()
      reads this
    {
      State() == Exec(start, trace)
    }

    constructor (ledger: map<Key, Entry>, names: map<Key, string>, budget: nat)
      ensures Valid() && State() == Durable(ledger, names) && this.budget == budget
    {
      this.ledger, this.names, this.budget := ledger, names, budget;
      start := Durable(ledger, names);
      trace := [];
    }

    /** One durable step of the journal or the provider, if the target still answers. */
    method Step(op: Op) returns (ok: bool)
      requires Valid()
      modifies this
      ensures Valid() && start == old(start)
      ensures ok <==> old(budget) > 0
      ensures ok ==> budget == old(budget) - 1 && trace == old(trace) + [op] && State() == Apply(old(State()), op)
      ensures !ok ==> budget == 0 && trace == old(trace) && State() == old(State())
    {
      if budget == 0 { return false; }
      budget := budget - 1;
      var c := ApplyCell(CellOf(Durable(ledger, names), op.key), op);
      ledger, names := Set(ledger, op.key, c.entry), Set(names, op.key, c.value);
      trace := trace + [op];
      assert trace[..|trace| - 1] == old(trace);
      return true;
    }

    /** The first `m` of `ops` have been taken since `from`. */
    ghost predicate Taken(from: seq<Op>, ops: seq<Op>, m: nat)
      reads this
    {
      m <= |ops| && trace == from + ops[..m]
    }

    /** Step number `m` of a planned list of steps. */
    method Next(op: Op, ghost from: seq<Op>, ghost ops: seq<Op>, ghost m: nat) returns (ok: bool)
      requires Valid() && m < |ops| && Taken(from, ops, m) && op == ops[m]
      modifies this
      ensures Valid() && start == old(start)
      ensures ok <==> old(budget) > 0
      ensures ok ==> budget == old(budget) - 1 && Taken(from, ops, m + 1) && State() == Apply(old(State()), op)
      ensures !ok ==> budget == 0 && Taken(from, ops, m) && State() == old(State())
    {
      ok := Step(op);
      assert from + ops[..m + 1] == from + ops[..m] + [ops[m]];
    }

    /** Runs out of budget inside the list, or takes all of it. */
    ghost predicate Went(from: seq<Op>, ops: seq<Op>, before: nat)
      reads this
    {
      if before < |ops| then budget == 0 && Taken(from, ops, before)
      else budget == before - |ops| && Taken(from, ops, |ops|)
    }

    /** Takes steps in order up to the first that fails: the rest of `all` from `m` on. */
    method Perform(ops: seq<Op>, ghost from: seq<Op>, ghost all: seq<Op>, ghost m: nat) returns (ok: bool)
      requires Valid() && m <= |all| && all[m..] == ops && Taken(from, all, m)
      modifies this
      ensures Valid() && start == old(start)
      ensures Went(from, all, m + old(budget)) && ok == (old(budget) >= |ops|)
    {
      for i := 0 to |ops|
        invariant Valid() && start == old(start) && Taken(from, all, m + i) && budget + i == old(budget)
      {
        assert ops[i] == all[m + i];
        ok := Next(ops[i], from, all, m + i);
        if !ok { return; }
      }
      ok := true;
    }

    method Claim(key: Key, name: string, ghost from: seq<Op>, ghost ops: seq<Op>) returns (ok: bool, state: LedgerState)
      requires Valid() && ops != [] && ops[0] == Reserve(key, name) && Taken(from, ops, 0) && key !in ledger
      modifies this
      ensures Valid() && start == old(start) && names == old(names)
      ensures ok <==> old(budget) > 0
      ensures ok ==> budget == old(budget) - 1 && Taken(from, ops, 1) && state.Reserved?
      ensures !ok ==> budget == 0 && Taken(from, ops, 0)
    {
      ReserveIsFresh(State(), key, name);
      ok := Next(Reserve(key, name), from, ops, 0);
      state := if key in ledger then ledger[key].state else Reserved;
    }

    /** One desired row, with the record the index has of it. */
    method SyncRow(row: DesiredRow, record: Option<Entry>) returns (ending: Ending, change: Change)
      requires Valid() && record == CellOf(State(), RowKey(row)).entry
      modifies this
      ensures Valid() && start == old(start)
      ensures Went(old(trace), RowOps(CellOf(old(State()), RowKey(row)), row), old(budget))
      ensures ending == if old(budget) < |RowOps(CellOf(old(State()), RowKey(row)), row)| then Interrupted
                        else if Foreign(CellOf(old(State()), RowKey(row))) then Refusal else Synchronized
      ensures change == RowChange(CellOf(old(State()), RowKey(row)), row)
    {
      var key := RowKey(row);
      ghost var c := CellOf(State(), key);
      ghost var ops, from, m := RowOps(c, row), trace, 0;
      assert c.value.Some? <==> key in names;
      var state := if record.Some? then record.value.state else Reserved;
      change := Change(row.surface, row.name, if record.Some? && !state.Reserved? && !record.value.missing then Update else Create);
      if record.None? {
        var ok;
        ok, state := Claim(key, row.name, from, ops);
        if !ok { return Interrupted, change; }
        m := 1;
      }
      if state.Reserved? && key in names {
        var ok := Next(Refuse(key), from, ops, m);
        return if ok then Refusal else Interrupted, change;
      }
      var write := [Gate(key), Prepare(key, state), Put(key, row.value), Finish(key, OWNED)];
      assert ops[m..] == write;
      var ok := Perform(write, from, ops, m);
      return if ok then Synchronized else Interrupted, change;
    }

    /** Stopped inside unit `i`, or past it. */
    ghost predicate At(units: seq<Unit>, i: nat, before: nat)
      reads this
    {
      i <= |units| && trace == Flatten(units[..i]) && budget + |trace| == before
    }

    /** The steps of one unit, taken from `At(units, i)`. */
    lemma UnitWent(units: seq<Unit>, i: nat, before: nat, b: nat)
      requires i < |units| && before == b + |Flatten(units[..i])|
      requires Went(Flatten(units[..i]), units[i].ops, b)
      ensures b >= |units[i].ops| ==> At(units, i + 1, before)
      ensures b < |units[i].ops| ==> budget == 0 && before < |Flatten(units)| && trace == Upto(Flatten(units), before)
    {
      if b < |units[i].ops| {
        StopsInUnit(units, i, b);
        FlattenSplit(units, i);
      } else {
        FlattenGrow(units, i);
      }
    }

    /** Nothing taken so far concerns the next unit's name. */
    lemma NextIsFresh(units: seq<Unit>, i: nat)
      requires Valid() && UnitsOk(units) && i < |units| && trace == Flatten(units[..i])
      ensures CellOf(State(), units[i].key) == CellOf(start, units[i].key)
    {
      EarlierUnitsElsewhere(units, i);
      ExecAt(start, trace, units[i].key);
      OnlyAbsent(trace, units[i].key);
    }

    /** Row `i` of the desired rows, unless a retry already completed it. */
    method SyncNext(desired: seq<DesiredRow>, completed: set<Key>, record: Option<Entry>, i: nat, ghost units: seq<Unit>, ghost b: nat)
      returns (ending: Ending, change: seq<Change>)
      requires Valid() && UnitsOk(units) && i < |units| && i < |desired| && At(units, i, b)
      requires units[i] == RowUnit(start, desired[i], completed)
      requires RowKey(desired[i]) !in completed ==> record == CellOf(start, RowKey(desired[i])).entry
      modifies this
      ensures Valid() && start == old(start)
      ensures ending.Interrupted? ==> budget == 0 && b < |Flatten(units)| && trace == Upto(Flatten(units), b)
      ensures !ending.Interrupted? ==> At(units, i + 1, b)
      ensures !ending.Interrupted? ==> ending == if Refused(start, desired[i], completed) then Refusal else Synchronized
      ensures change == if RowKey(desired[i]) in completed then [] else [RowChange(CellOf(start, RowKey(desired[i])), desired[i])]
    {
      ghost var before := budget;
      if RowKey(desired[i]) in completed {
        UnitWent(units, i, b, before);
        return Synchronized, [];
      }
      NextIsFresh(units, i);
      var one;
      ending, one := SyncRow(desired[i], record);
      UnitWent(units, i, b, before);
      change := [one];
    }

    method SyncRows(desired: seq<DesiredRow>, completed: set<Key>, ledgerIndex: map<Key, Entry>)
      returns (ending: Ending, index: map<Key, Entry>, changes: seq<Change>, ghost finished: nat)
      requires Valid() && trace == [] && DistinctKeys(desired) && ledgerIndex == start.ledger
      modifies this
      ensures Valid() && start == old(start)
      ensures var ops := Flatten(DesiredUnits(start, desired, completed));
              trace == Upto(ops, old(budget)) && budget == old(budget) - |trace| &&
              ending == if old(budget) < |ops| then Interrupted
                        else if Conflicted(start, desired, completed) then Refusal else Synchronized
      ensures changes <= RowChanges(start, desired, completed)
      ensures ending.Synchronized? ==> changes == RowChanges(start, desired, completed)
      ensures Finished(start, desired, completed, changes, old(budget), finished)
      ensures IndexFollows(Keys(desired), index, ledgerIndex)
    {
      ghost var d, b, units := start, budget, DesiredUnits(start, desired, completed);
      DesiredUnitsOk(start, desired, completed);
      index, changes, finished := ledgerIndex, [], 0;
      for i := 0 to |desired|
        invariant Valid() && start == d && At(units, i, b) && finished == i
        invariant Finished(d, desired, completed, changes, b, i)
        invariant IndexFollows(Keys(desired[..i]), index, ledgerIndex)
      {
        var row := desired[i];
        IndexGrows(desired, i, index, ledgerIndex);
        RowsGrow(desired, i);
        FinishedGrows(d, desired, completed, changes, b, i);
        var change;
        ending, change := SyncNext(desired, completed, if RowKey(row) in index then Some(index[RowKey(row)]) else None, i, units, b);
        if !ending.Synchronized? { return; }
        if RowKey(row) !in completed {
          index := Owning(index, row);
        }
        changes, finished := changes + change, i + 1;
      }
      assert desired[..|desired|] == desired;
      AllUnits(d, desired, completed);
      ending := Synchronized;
    }

    method ReleaseReservations(rows: seq<Entry>, ghost units: seq<Unit>, ghost r: nat, ghost b: nat) returns (ok: bool)
      requires Valid() && At(units, r, b) && r + |rows| <= |units|
      requires forall i | 0 <= i < |rows| :: units[r + i] == ReservationUnits(rows)[i]
      modifies this
      ensures Valid() && start == old(start)
      ensures !ok ==> budget == 0 && b < |Flatten(units)| && trace == Upto(Flatten(units), b)
      ensures ok ==> At(units, r + |rows|, b)
    {
      for i := 0 to |rows|
        invariant Valid() && start == old(start) && At(units, r + i, b)
      {
        ghost var before, from := budget, trace;
        ghost var u := units[r + i];
        assert u == ReservationUnits(rows)[i] == Unit(EntryKey(rows[i]), [ReleaseReservation(EntryKey(rows[i]))]);
        ok := Next(ReleaseReservation(EntryKey(rows[i])), from, u.ops, 0);
        UnitWent(units, r + i, b, before);
        if !ok { return; }
      }
      ok := true;
    }

    method PruneOne(row: Entry, ghost units: seq<Unit>, ghost i: nat, ghost b: nat) returns (ok: bool)
      requires Valid() && At(units, i, b) && i < |units| && units[i] == Unit(EntryKey(row), PruneOps(row))
      modifies this
      ensures Valid() && start == old(start)
      ensures !ok ==> budget == 0 && b < |Flatten(units)| && trace == Upto(Flatten(units), b)
      ensures ok ==> At(units, i + 1, b)
    {
      ghost var before := budget;
      var key := EntryKey(row);
      var remove := [Gate(key), Prepare(key, row.state), Remove(key), Finish(key, RELEASED)];
      ok := Perform(remove, trace, remove, 0);
      UnitWent(units, i, b, before);
    }

    method PruneAll(rows: seq<Entry>, ghost units: seq<Unit>, ghost r: nat, ghost b: nat) returns (ok: bool, changes: seq<Change>)
      requires Valid() && At(units, r, b) && r + |rows| == |units|
      requires forall i | 0 <= i < |rows| :: units[r + i] == PruneUnits(rows)[i]
      modifies this
      ensures Valid() && start == old(start)
      ensures !ok ==> budget == 0 && b < |Flatten(units)| && trace == Upto(Flatten(units), b)
      ensures ok ==> At(units, |units|, b)
      ensures changes <= Deletions(rows) && (ok ==> changes == Deletions(rows))
    {
      changes := [];
      for i := 0 to |rows|
        invariant Valid() && start == old(start) && At(units, r + i, b)
        invariant changes == Deletions(rows[..i]) && changes <= Deletions(rows)
      {
        assert units[r + i] == PruneUnits(rows)[i];
        ok := PruneOne(rows[i], units, r + i, b);
        if !ok { return; }
        changes := changes + [Change(rows[i].surface, rows[i].name, Delete)];
        DeletionsGrow(rows, i);
      }
      assert rows[..|rows|] == rows;
      ok := true;
    }

    /** Releases what is only reserved, then prunes what is held, behind finished desired rows. */
    method Clear(reservations: seq<Entry>, prunes: seq<Entry>, ghost w: Work, ghost b: nat) returns (ok: bool, changes: seq<Change>)
      requires Valid() && !Conflicted(start, w.desired, w.completed) && w.reservations == reservations && w.prunes == prunes
      requires trace == Flatten(DesiredUnits(start, w.desired, w.completed)) && budget + |trace| == b
      modifies this
      ensures Valid() && start == old(start)
      ensures trace == Upto(Script(start, w), b) && budget + |trace| == b && ok == (b >= |Script(start, w)|)
      ensures changes <= Deletions(prunes) && (ok ==> changes == Deletions(prunes))
    {
      changes := [];
      ghost var units, r, p := ClearUnits(start, w);
      assert At(units, r, b);
      ok := ReleaseReservations(reservations, units, r, b);
      if !ok { return; }
      ok, changes := PruneAll(prunes, units, p, b);
      if ok { UptoAll(Script(start, w), b); }
    }

    /** What Sync refuses before it touches anything. */
    method Admit(prefix: string, manifest: seq<ManifestEntry>, rows: seq<Entry>) returns (index: Option<map<Key, Entry>>)
      requires Enumerates(rows, ledger) && forall k | k in ledger :: EntryKey(ledger[k]) == k
      ensures index.None? <==> !ManifestOk(prefix, manifest) || exists e | e in rows :: !StateOk(Some(e.state), e.missing)
      ensures index.Some? ==> index.value == ledger && WellKeyed(ledger)
    {
      var valid := ValidateManifest(prefix, manifest);
      if !valid { return None; }
      var indexed := IndexLedger(rows);
      if indexed.Err? { return None; }
      assert WellKeyed(ledger) by { forall k | k in ledger ensures StateOk(Some(ledger[k].state), ledger[k].missing) { assert ledger[k] in rows; } }
      ValidLedgerReindexes(rows, ledger, indexed.value);
      return Some(indexed.value);
    }

    method Run(desired: seq<DesiredRow>, completed: set<Key>, index: map<Key, Entry>)
      returns (ending: Ending, changes: seq<Change>, ghost w: Work)
      requires Valid() && trace == [] && DistinctKeys(desired) && index == start.ledger && WellKeyed(index)
      modifies this
      ensures Valid() && start == old(start) && w.desired == desired && w.completed == completed && Prepared(start, w)
      ensures trace == Upto(Script(start, w), old(budget))
      ensures ending == if old(budget) < |Script(start, w)| then Interrupted
                        else if Conflicted(start, desired, completed) then Refusal else Synchronized
      ensures changes <= Report(start, w) && (ending.Synchronized? ==> changes == Report(start, w))
      ensures Acknowledged(w, Stopped(start, w, old(budget)), changes)
    {
      ghost var b := budget;
      var current;
      ghost var finished;
      ending, current, changes, finished := SyncRows(desired, completed, index);
      if !ending.Synchronized? {
        w := WorkExists(start, desired, completed);
        ScriptStarts(start, w, b);
        FinishedAreAcknowledged(start, w, b, changes, finished);
        return;
      }
      var reservations, prunes := Undesired(desired, current);
      LeftOverOutside(reservations, Keys(desired), current, index, true);
      LeftOverOutside(prunes, Keys(desired), current, index, false);
      w := Work(desired, completed, reservations, prunes);
      ScriptStarts(start, w, b);
      FinishedAreAcknowledged(start, w, b, changes, finished);
      var ok, deleted := Clear(reservations, prunes, w, b);
      DeletionsAcknowledgeNothing(start, w, b, changes, deleted);
      changes := changes + deleted;
      if !ok { ending := Interrupted; }
    }

    /** Everything Sync did is a first part of the script of its work, cut where the target stopped answering. */
    method Sync(prefix: string, manifest: seq<ManifestEntry>, rows: seq<Entry>, done: seq<Change>, teardown: bool)
      returns (ending: Ending, changes: seq<Change>, ghost w: Work)
      requires Enumerates(rows, ledger) && forall k | k in ledger :: EntryKey(ledger[k]) == k
      modifies this
      ensures ending.Rejected? <==> !ManifestOk(prefix, manifest) || exists e | e in rows :: !StateOk(Some(e.state), e.missing)
      ensures ending.Rejected? ==> State() == old(State()) && changes == []
      ensures !ending.Rejected? ==> w.desired == Desired(prefix, manifest, !teardown) && w.completed == CompletedNames(done)
      ensures !ending.Rejected? ==> Prepared(old(State()), w)
      ensures !ending.Rejected? ==> State() == Stopped(old(State()), w, old(budget))
      ensures !ending.Rejected? ==>
                ending == if old(budget) < |Script(old(State()), w)| then Interrupted
                          else if Conflicted(old(State()), w.desired, w.completed) then Refusal else Synchronized
      ensures !ending.Rejected? ==> changes <= Report(old(State()), w)
      ensures ending.Synchronized? ==> changes == Report(old(State()), w)
      ensures !ending.Rejected? ==> Acknowledged(w, State(), changes)
    {
      start, trace := State(), [];
      var index := Admit(prefix, manifest, rows);
      if index.None? { return Rejected, [], Work([], {}, [], []); }
      var desired := DesiredRows(prefix, manifest, !teardown);
      DesiredKeysAreDistinct(prefix, manifest, !teardown);
      ending, changes, w := Run(desired, CompletedNames(done), index.value);
    }
  }

  /** One list in three parts. */
  ghost predicate InParts(units: seq<Unit>, head: seq<Unit>, middle: seq<Unit>, tail: seq<Unit>) {
    && |units| == |head| + |middle| + |tail| && units[..|head|] == head
    && (forall k | |head| <= k < |head| + |middle| :: units[k] == middle[k - |head|])
    && (forall k | |head| + |middle| <= k < |units| :: units[k] == tail[k - |head| - |middle|])
  }

  lemma Parts(head: seq<Unit>, middle: seq<Unit>, tail: seq<Unit>)
    ensures InParts(head + (middle + tail), head, middle, tail)
  {}

  lemma UnitsInParts(d: Durable, w: Work) returns (units: seq<Unit>)
    requires !Conflicted(d, w.desired, w.completed)
    ensures Flatten(units) == Script(d, w)
    ensures InParts(units, DesiredUnits(d, w.desired, w.completed), ReservationUnits(w.reservations), PruneUnits(w.prunes))
  {
    units := Units(d, w);
    Parts(DesiredUnits(d, w.desired, w.completed), ReservationUnits(w.reservations), PruneUnits(w.prunes));
  }

  /** Where the releases and the prunes of a sync without conflict stand in its script. */
  lemma ClearUnits(d: Durable, w: Work) returns (units: seq<Unit>, r: nat, p: nat)
    requires !Conflicted(d, w.desired, w.completed)
    ensures Flatten(units) == Script(d, w) && r <= |units| && Flatten(units[..r]) == Flatten(DesiredUnits(d, w.desired, w.completed))
    ensures p == r + |w.reservations| && p + |w.prunes| == |units| && Flatten(units[..|units|]) == Script(d, w)
    ensures forall i | 0 <= i < |w.reservations| :: units[r + i] == ReservationUnits(w.reservations)[i]
    ensures forall i | 0 <= i < |w.prunes| :: units[p + i] == PruneUnits(w.prunes)[i]
  {
    units := UnitsInParts(d, w);
    r := |DesiredUnits(d, w.desired, w.completed)|;
    p := r + |w.reservations|;
    assert units[..|units|] == units;
  }

  function CompletedNames(changes: seq<Change>): set<Key> {
    set c | c in changes :: NewKey(c.surface, c.name)
  }

  /** The left-over lists of a work are those of the ledger it started from, in the order they are dropped. */
  ghost predicate Prepared(d: Durable, w: Work) {
    Lists(d, w) && SortedBy(w.reservations, EntryLeq) && SortedBy(w.prunes, EntryLeqSentinelsLast)
  }

  function Report(d: Durable, w: Work): seq<Change> {
    RowChanges(d, w.desired, w.completed) + Deletions(w.prunes)
  }

  lemma WorkExists(d: Durable, desired: seq<DesiredRow>, completed: set<Key>) returns (w: Work)
    requires WellKeyed(d.ledger) && DistinctKeys(desired)
    ensures w.desired == desired && w.completed == completed && Prepared(d, w)
  {
    EntryLeqIsPreorder();
    var reservations := LeftOverExists(Keys(desired), d.ledger, true, EntryLeq);
    var prunes := LeftOverExists(Keys(desired), d.ledger, false, EntryLeqSentinelsLast);
    w := Work(desired, completed, reservations, prunes);
  }

  lemma LeftOverOutside(rows: seq<Entry>, desired: set<Key>, a: map<Key, Entry>, b: map<Key, Entry>, reserved: bool)
    requires SameOutside(desired, a, b) && LeftOver(rows, desired, a, reserved)
    ensures LeftOver(rows, desired, b, reserved)
  {}

  lemma ScriptStarts(d: Durable, w: Work, b: nat)
    ensures var head := Flatten(DesiredUnits(d, w.desired, w.completed));
            && head <= Script(d, w) && (b < |head| ==> Upto(Script(d, w), b) == Upto(head, b))
            && (Conflicted(d, w.desired, w.completed) ==> Script(d, w) == head)
  {
    var head := DesiredUnits(d, w.desired, w.completed);
    var rest := if Conflicted(d, w.desired, w.completed) then [] else ReservationUnits(w.reservations) + PruneUnits(w.prunes);
    FlattenConcat(head, rest);
  }

  /** The reported rows are the first `finished` ones, all run in full within the budget. */
  ghost predicate Finished(d: Durable, desired: seq<DesiredRow>, completed: set<Key>, changes: seq<Change>, budget: nat, finished: nat) {
    && finished <= |desired| && finished <= |DesiredUnits(d, desired, completed)|
    && changes == RowChanges(d, desired[..finished], completed)
    && NoneRefused(d, desired[..finished], completed)
    && |Flatten(DesiredUnits(d, desired, completed)[..finished])| <= budget
  }

  ghost predicate SameOutside(keys: set<Key>, a: map<Key, Entry>, b: map<Key, Entry>) {
    forall k | k !in keys :: (k in a <==> k in b) && (k in a ==> a[k] == b[k])
  }

  ghost predicate IndexFollows(keys: set<Key>, index: map<Key, Entry>, ledger: map<Key, Entry>) {
    SameOutside(keys, index, ledger) && (WellKeyed(ledger) ==> WellKeyed(index))
  }

  function Owning(index: map<Key, Entry>, row: DesiredRow): map<Key, Entry> {
    index[RowKey(row) := Entry(row.surface, row.name, Owned, false)]
  }

  lemma IndexGrows(rows: seq<DesiredRow>, i: nat, index: map<Key, Entry>, ledger: map<Key, Entry>)
    requires i < |rows| && IndexFollows(Keys(rows[..i]), index, ledger)
    ensures IndexFollows(Keys(rows[..i + 1]), index, ledger) && IndexFollows(Keys(rows[..i + 1]), Owning(index, rows[i]), ledger)
    ensures IndexFollows(Keys(rows), index, ledger)
  {
    assert rows[..i + 1] == rows[..i] + [rows[i]];
  }

  ghost predicate NoneRefused(d: Durable, rows: seq<DesiredRow>, completed: set<Key>) {
    forall row | row in rows :: !Refused(d, row, completed)
  }

  lemma UnitOfRow(d: Durable, rows: seq<DesiredRow>, completed: set<Key>, i: nat)
    requires i < |rows| && NoneRefused(d, rows[..i], completed)
    ensures var units := DesiredUnits(d, rows, completed);
            && i < |units| && units[i] == RowUnit(d, rows[i], completed)
            && (Refused(d, rows[i], completed) ==> Conflicted(d, rows, completed) && i + 1 == |units| && units[..i + 1] == units)
  {
    DesiredUnitsAt(d, rows, completed);
    assert rows[i] in rows;
    assert forall j | 0 <= j < i :: rows[..i][j] == rows[j];
  }

  lemma RowsGrow(rows: seq<DesiredRow>, i: nat)
    requires DistinctKeys(rows) && i < |rows|
    ensures RowKey(rows[i]) !in Keys(rows[..i]) && Keys(rows[..i + 1]) == Keys(rows[..i]) + {RowKey(rows[i])}
  {
    assert rows[..i + 1] == rows[..i] + [rows[i]];
  }

  /** The next row has a unit, ends the script if it is refused, and is reported once it ran within the budget. */
  lemma FinishedGrows(d: Durable, rows: seq<DesiredRow>, completed: set<Key>, changes: seq<Change>, budget: nat, i: nat)
    requires i < |rows| && Finished(d, rows, completed, changes, budget, i)
    ensures var units := DesiredUnits(d, rows, completed);
            var change := if RowKey(rows[i]) in completed then [] else [RowChange(CellOf(d, RowKey(rows[i])), rows[i])];
            && i < |units| && units[i] == RowUnit(d, rows[i], completed)
            && changes <= RowChanges(d, rows, completed)
            && (Refused(d, rows[i], completed) ==> Conflicted(d, rows, completed) && i + 1 == |units| && units[..i + 1] == units)
            && (!Refused(d, rows[i], completed) && |Flatten(units[..i + 1])| <= budget ==>
                  Finished(d, rows, completed, changes + change, budget, i + 1))
  {
    UnitOfRow(d, rows, completed, i);
    ChangesGrow(d, rows, completed, i);
    if !Refused(d, rows[i], completed) { NoneRefusedGrows(d, rows, completed, i); }
  }

  lemma NoneRefusedGrows(d: Durable, rows: seq<DesiredRow>, completed: set<Key>, i: nat)
    requires i < |rows| && NoneRefused(d, rows[..i], completed) && !Refused(d, rows[i], completed)
    ensures NoneRefused(d, rows[..i + 1], completed)
  {
    assert rows[..i + 1] == rows[..i] + [rows[i]];
  }

  lemma AllUnits(d: Durable, rows: seq<DesiredRow>, completed: set<Key>)
    requires NoneRefused(d, rows, completed)
    ensures var units := DesiredUnits(d, rows, completed);
            |units| == |rows| && !Conflicted(d, rows, completed) && units[..|rows|] == units
  {
    DesiredUnitsAt(d, rows, completed);
  }

  lemma ChangesGrow(d: Durable, rows: seq<DesiredRow>, completed: set<Key>, i: nat)
    requires i < |rows|
    ensures RowChanges(d, rows[..i + 1], completed) ==
            RowChanges(d, rows[..i], completed) +
            (if RowKey(rows[i]) in completed then [] else [RowChange(CellOf(d, RowKey(rows[i])), rows[i])])
    ensures RowChanges(d, rows[..i], completed) <= RowChanges(d, rows, completed)
  {
    assert rows[..i + 1][..i] == rows[..i];
    ChangesPrefix(d, rows, completed, i);
  }

  lemma {:induction false} ChangesPrefix(d: Durable, rows: seq<DesiredRow>, completed: set<Key>, i: nat)
    requires i <= |rows|
    ensures RowChanges(d, rows[..i], completed) <= RowChanges(d, rows, completed)
    decreases |rows| - i
  {
    if i == |rows| {
      assert rows[..i] == rows;
    } else {
      assert rows[..i + 1][..i] == rows[..i];
      ChangesPrefix(d, rows, completed, i + 1);
    }
  }

  // ---- What a report acknowledges -----------------------------------------------------------------

  /** Every desired row reported as written is delivered. */
  ghost predicate Acknowledged(w: Work, d: Durable, changes: seq<Change>) {
    forall row | row in w.desired && RowKey(row) !in w.completed && RowKey(row) in CompletedNames(changes) ::
      Delivered(CellOf(d, RowKey(row)), row)
  }

  lemma FlattenHead(units: seq<Unit>, q: nat)
    requires 0 < q <= |units|
    ensures |Flatten(units[..q])| == |units[0].ops| + |Flatten(units[1..][..q - 1])|
  {
    assert units[..q][1..] == units[1..][..q - 1];
  }

  lemma {:induction false} ShareBeyond(units: seq<Unit>, n: nat, q: nat)
    requires UnitsOk(units) && q < |units| && |Flatten(units[..q + 1])| <= n
    ensures Share(units, n, units[q].key) == units[q].ops
  {
    FlattenHead(units, q + 1);
    if q == 0 {
      ShareHead(units, n);
    } else {
      ShareRest(units, n, q);
      ShareBeyond(units[1..], n - |units[0].ops|, q - 1);
    }
  }

  lemma RunRowIsDelivered(c: Cell, row: DesiredRow)
    requires !Foreign(c)
    ensures Delivered(ExecCell(c, RowOps(c, row)), row)
  {
    var ops := RowOps(c, row);
    ExecIsStage(c, RowKey(row), Some(row), false, |ops|);
    assert ops[..|ops|] == ops;
  }

  lemma {:induction false} FlattenMonotone(units: seq<Unit>, i: nat, j: nat)
    requires i <= j <= |units|
    ensures |Flatten(units[..i])| <= |Flatten(units[..j])|
  {
    assert units[..j] == units[..i] + units[i..j];
    FlattenConcat(units[..i], units[i..j]);
  }

  lemma HeadOfUnits(d: Durable, w: Work, finished: nat)
    requires finished <= |DesiredUnits(d, w.desired, w.completed)|
    ensures finished <= |Units(d, w)| && Units(d, w)[..finished] == DesiredUnits(d, w.desired, w.completed)[..finished]
  {}

  lemma UnitOfDesired(d: Durable, w: Work, i: nat)
    requires i < |DesiredUnits(d, w.desired, w.completed)|
    ensures i < |w.desired| && i < |Units(d, w)| && Units(d, w)[i] == RowUnit(d, w.desired[i], w.completed)
  {
    DesiredUnitsAt(d, w.desired, w.completed);
  }

  lemma FinishedRowRan(d: Durable, w: Work, n: nat, finished: nat, i: nat)
    requires UnitsOk(Units(d, w)) && i < finished <= |w.desired| && finished <= |DesiredUnits(d, w.desired, w.completed)|
    requires RowKey(w.desired[i]) !in w.completed
    requires |Flatten(DesiredUnits(d, w.desired, w.completed)[..finished])| <= n
    ensures Share(Units(d, w), n, RowKey(w.desired[i])) == RowOps(CellOf(d, RowKey(w.desired[i])), w.desired[i])
  {
    HeadOfUnits(d, w, finished);
    UnitOfDesired(d, w, i);
    FlattenMonotone(Units(d, w), i + 1, finished);
    ShareBeyond(Units(d, w), n, i);
  }

  lemma FinishedRowIsDelivered(d: Durable, w: Work, n: nat, finished: nat, i: nat)
    requires Lists(d, w) && i < finished <= |w.desired| && finished <= |DesiredUnits(d, w.desired, w.completed)|
    requires NoneRefused(d, w.desired[..finished], w.completed) && RowKey(w.desired[i]) !in w.completed
    requires |Flatten(DesiredUnits(d, w.desired, w.completed)[..finished])| <= n
    ensures Delivered(CellOf(Stopped(d, w, n), RowKey(w.desired[i])), w.desired[i])
  {
    var row := w.desired[i];
    assert Share(Units(d, w), n, RowKey(row)) == RowOps(CellOf(d, RowKey(row)), row) by {
      UnitsAreOk(d, w);
      FinishedRowRan(d, w, n, finished, i);
    }
    ShareDecides(d, w, n, RowKey(row));
    assert w.desired[..finished][i] == row && !Refused(d, row, w.completed);
    RunRowIsDelivered(CellOf(d, RowKey(row)), row);
  }

  lemma {:induction false} ReportedRow(d: Durable, rows: seq<DesiredRow>, completed: set<Key>, k: Key) returns (i: nat)
    requires k in CompletedNames(RowChanges(d, rows, completed))
    ensures i < |rows| && RowKey(rows[i]) == k
  {
    var changes, last := RowChanges(d, rows, completed), |rows| - 1;
    var c :| c in changes && NewKey(c.surface, c.name) == k;
    if c in RowChanges(d, rows[..last], completed) {
      i := ReportedRow(d, rows[..last], completed, k);
    } else {
      i := last;
    }
  }

  lemma ReportedIsDelivered(d: Durable, w: Work, n: nat, changes: seq<Change>, finished: nat, j: nat)
    requires Lists(d, w) && Finished(d, w.desired, w.completed, changes, n, finished) && j < |w.desired|
    requires RowKey(w.desired[j]) !in w.completed && RowKey(w.desired[j]) in CompletedNames(changes)
    ensures Delivered(CellOf(Stopped(d, w, n), RowKey(w.desired[j])), w.desired[j])
  {
    var i := ReportedRow(d, w.desired[..finished], w.completed, RowKey(w.desired[j]));
    assert RowKey(w.desired[i]) == RowKey(w.desired[j]);
    FinishedRowIsDelivered(d, w, n, finished, i);
  }

  lemma FinishedAreAcknowledged(d: Durable, w: Work, n: nat, changes: seq<Change>, finished: nat)
    requires Lists(d, w) && Finished(d, w.desired, w.completed, changes, n, finished)
    ensures Acknowledged(w, Stopped(d, w, n), changes)
  {
    forall row | row in w.desired && RowKey(row) !in w.completed && RowKey(row) in CompletedNames(changes)
      ensures Delivered(CellOf(Stopped(d, w, n), RowKey(row)), row)
    {
      var j :| 0 <= j < |w.desired| && w.desired[j] == row;
      ReportedIsDelivered(d, w, n, changes, finished, j);
    }
  }

  lemma DeletionsAcknowledgeNothing(d: Durable, w: Work, n: nat, changes: seq<Change>, deleted: seq<Change>)
    requires Lists(d, w) && Acknowledged(w, Stopped(d, w, n), changes) && deleted <= Deletions(w.prunes)
    ensures Acknowledged(w, Stopped(d, w, n), changes + deleted)
  {
    forall c | c in deleted ensures NewKey(c.surface, c.name) !in Keys(w.desired) {
      var i :| 0 <= i < |deleted| && deleted[i] == c;
      assert c == Deletions(w.prunes)[i] == Deletion(w.prunes[i]) && w.prunes[i] in w.prunes;
    }
    assert CompletedNames(changes + deleted) == CompletedNames(changes) + CompletedNames(deleted);
  }

  /** A retry of the same desired rows may skip what earlier attempts acknowledged: those names hold what is desired. */
  lemma RetrySkipsDeliveredNames(d: Durable, w: Work, n: nat, changes: seq<Change>, retry: Work)
    requires WorkOf(d, w) && Acknowledged(w, Stopped(d, w, n), changes)
    requires Lists(Stopped(d, w, n), retry) && retry.desired == w.desired
    requires retry.completed <= w.completed + CompletedNames(changes)
    ensures WorkOf(Stopped(d, w, n), retry)
  {
    forall row | row in retry.desired && RowKey(row) in retry.completed
      ensures Delivered(CellOf(Stopped(d, w, n), RowKey(row)), row)
    {
      if RowKey(row) in w.completed {
        var m := StoppedAt(d, w, n, RowKey(row));
        assert RowKey(row) in Keys(w.desired);
      }
    }
  }
}
