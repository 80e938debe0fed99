/**
 The plan of a sync, and that it says what the sync then does.
 */
module Planning {
  import opened Common
  import opened Sorting
  import opened Ledger
  import opened SyncScript
  import opened SyncConvergence
  import opened FakeModule

  function PlanRow(row: DesiredRow, ledger: map<Key, Entry>, providerSecrets: set<string>): Change {
    var key := RowKey(row);
    var claimed := key in ledger;
    Change(row.surface, row.name,
           if claimed && !ledger[key].state.Reserved? && !ledger[key].missing then Update
           else if row.surface.Secret? && row.name in providerSecrets then Conflict
           else if row.surface.Variable? && !claimed then Unknown
           else Create)
  }

  function PlanRows(desired: seq<DesiredRow>, ledger: map<Key, Entry>, providerSecrets: set<string>): seq<Change> {
    seq(|desired|, i requires 0 <= i < |desired| => PlanRow(desired[i], ledger, providerSecrets))
  }

  predicate ChangeLeq(a: Change, b: Change) {
    NameLeq(a.surface, a.name, b.surface, b.name)
  }

  /** One change per desired row and one deletion per row that is to go, in name order. */
  ghost predicate PlanOf(desired: seq<DesiredRow>, ledger: map<Key, Entry>, providerSecrets: set<string>,
                         changes: seq<Change>, prunes: seq<Entry>) {
    && LeftOver(prunes, Keys(desired), ledger, false)
    && multiset(changes) == multiset(PlanRows(desired, ledger, providerSecrets) + Deletions(prunes))
    && SortedBy(changes, ChangeLeq)
  }

  /** A plan whose deletions are those of some list of the rows that are to go. */
  ghost predicate Plans(desired: seq<DesiredRow>, ledger: map<Key, Entry>, providerSecrets: set<string>, changes: seq<Change>) {
    exists prunes :: PlanOf(desired, ledger, providerSecrets, changes, prunes)
  }

  method PlanChanges(desired: seq<DesiredRow>, ledger: map<Key, Entry>, providerSecrets: set<string>)
    returns (changes: seq<Change>)
    requires WellKeyed(ledger)
    ensures Plans(desired, ledger, providerSecrets, changes)
  {
    changes := [];
    ghost var prunes: seq<Entry> := [];
    for i := 0 to |desired|
      invariant changes == PlanRows(desired[..i], ledger, providerSecrets)
    {
      changes := changes + [PlanRow(desired[i], ledger, providerSecrets)];
    }
    assert desired[..|desired|] == desired;
    var desiredSet, left := Keys(desired), ledger.Keys;
    while left != {}
      invariant left <= ledger.Keys
      invariant LeftOver(prunes, desiredSet, ledger - left, false)
      invariant changes == PlanRows(desired, ledger, providerSecrets) + Deletions(prunes)
      decreases left
    {
      var k :| k in left;
      var record := ledger[k];
      LeftOverGrows(prunes, desiredSet, ledger, left, k, false);
      if k !in desiredSet && !record.state.Reserved? {
        changes := changes + [Change(record.surface, record.name, Delete)];
        assert Deletions(prunes + [record]) == Deletions(prunes) + [Deletion(record)];
        prunes := prunes + [record];
      }
      left := left - {k};
    }
    assert ledger - left == ledger;
    ChangeLeqIsPreorder();
    SortSorts(changes, ChangeLeq);
    changes := Sort(changes, ChangeLeq);
    assert PlanOf(desired, ledger, providerSecrets, changes, prunes);
  }

  lemma ChangeLeqIsPreorder()
    ensures TotalPreorder(ChangeLeq)
  {
    forall a, b, c ensures (ChangeLeq(a, b) || ChangeLeq(b, a)) && (ChangeLeq(a, b) && ChangeLeq(b, c) ==> ChangeLeq(a, c)) {
      NameLeqIsPreorder(a.surface, a.name, b.surface, b.name, c.surface, c.name);
    }
  }

  function NameSet(names: map<Key, string>): set<string> {
    set k | k in names && k.surface.Secret? :: Upper(k.name)
  }

  method Plan(target: Target, prefix: string, manifest: seq<ManifestEntry>, rows: seq<Entry>)
    returns (changes: Option<seq<Change>>)
    requires Enumerates(rows, target.ledger) && forall k | k in target.ledger :: EntryKey(target.ledger[k]) == k
    ensures changes.None? <==> !ManifestOk(prefix, manifest) || exists e | e in rows :: !StateOk(Some(e.state), e.missing)
    ensures changes.Some? ==> Plans(Desired(prefix, manifest, true), target.ledger, NameSet(target.names), changes.value)
  {
    var index := target.Admit(prefix, manifest, rows);
    if index.None? { return None; }
    var desired := DesiredRows(prefix, manifest, true);
    var planned := PlanChanges(desired, index.value, NameSet(target.names));
    return Some(planned);
  }

  // ---- Agreement with Sync --------------------------------------------------------------------

  /** How a planned change turns out when nothing stands in its way. */
  function Resolve(c: Change): Change {
    if c.disposition.Unknown? || c.disposition.Conflict? then c.(disposition := Create) else c
  }

  function Resolved(changes: seq<Change>): seq<Change> {
    Map(Resolve, changes)
  }

  lemma {:induction false} DistinctHoldsOnce(s: seq<Entry>, e: Entry)
    requires DistinctBy(s, EntryKey)
    ensures multiset(s)[e] == if e in s then 1 else 0
  {
    if s != [] {
      assert s == s[..|s| - 1] + [s[|s| - 1]];
      DistinctHoldsOnce(s[..|s| - 1], e);
      if e in s[..|s| - 1] {
        var i :| 0 <= i < |s| - 1 && s[i] == e;
        assert EntryKey(s[i]) != EntryKey(s[|s| - 1]);
      }
    }
  }

  /** Two lists of the rows that must go differ only in order. */
  lemma LeftOverIsUnique(a: seq<Entry>, b: seq<Entry>, desired: set<Key>, ledger: map<Key, Entry>, reserved: bool)
    requires LeftOver(a, desired, ledger, reserved) && LeftOver(b, desired, ledger, reserved)
    ensures multiset(a) == multiset(b)
  {
    forall e ensures multiset(a)[e] == multiset(b)[e] {
      DistinctHoldsOnce(a, e);
      DistinctHoldsOnce(b, e);
    }
  }

  lemma {:induction false} RowChangesAt(d: Durable, rows: seq<DesiredRow>)
    ensures |RowChanges(d, rows, {})| == |rows|
    ensures forall i | 0 <= i < |rows| :: RowChanges(d, rows, {})[i] == RowChange(CellOf(d, RowKey(rows[i])), rows[i])
  {
    if rows != [] { RowChangesAt(d, rows[..|rows| - 1]); }
  }

  /** The provider knows its names in upper case. */
  ghost predicate UpperNames(names: map<Key, string>) {
    forall k | k in names :: Upper(k.name) == k.name
  }

  /** A name the plan cannot see: present and not held, but a variable, or not spelt in upper case. */
  predicate Hidden(d: Durable, row: DesiredRow) {
    Foreign(CellOf(d, RowKey(row))) && (row.surface.Variable? || Upper(row.name) != row.name)
  }

  /** A held name marked missing: the plan takes its value at the provider for somebody else's. */
  predicate Missed(d: Durable, row: DesiredRow) {
    RowKey(row) in d.ledger && d.ledger[RowKey(row)].missing
  }

  lemma PlanRowIsRight(d: Durable, row: DesiredRow)
    requires UpperNames(d.remote) && WellKeyed(d.ledger)
    ensures var c := PlanRow(row, d.ledger, NameSet(d.remote));
            && (Foreign(CellOf(d, RowKey(row))) <==> (c.disposition.Conflict? && !Missed(d, row)) || Hidden(d, row))
            && (!Foreign(CellOf(d, RowKey(row))) ==> Resolve(c) == RowChange(CellOf(d, RowKey(row)), row))
            && c.surface == row.surface && c.name == row.name && !c.disposition.Delete?
  {
    var k := RowKey(row);
    assert k in d.remote && row.surface.Secret? && Upper(row.name) == row.name ==> row.name in NameSet(d.remote);
    if row.surface.Secret? && row.name in NameSet(d.remote) {
      var j :| j in d.remote && j.surface.Secret? && Upper(j.name) == row.name;
      assert j == k;
    }
  }

  lemma DeletionsDelete(prunes: seq<Entry>)
    ensures forall c | c in Deletions(prunes) :: c.disposition.Delete?
  {
    forall c | c in Deletions(prunes) ensures c.disposition.Delete? {
      var i :| 0 <= i < |prunes| && Deletions(prunes)[i] == c;
      assert c == Deletion(prunes[i]);
    }
  }

  /** The plan shows the row as taken. */
  predicate Shown(plan: seq<Change>, row: DesiredRow) {
    Change(row.surface, row.name, Conflict) in plan
  }

  lemma ShownIsPlanned(d: Durable, desired: seq<DesiredRow>, plan: seq<Change>, prunes: seq<Entry>, row: DesiredRow)
    requires UpperNames(d.remote) && WellKeyed(d.ledger) && DistinctKeys(desired) && row in desired
    requires PlanOf(desired, d.ledger, NameSet(d.remote), plan, prunes)
    ensures Shown(plan, row) <==> PlanRow(row, d.ledger, NameSet(d.remote)).disposition.Conflict?
  {
    var rows, c := PlanRows(desired, d.ledger, NameSet(d.remote)), Change(row.surface, row.name, Conflict);
    var i :| 0 <= i < |desired| && desired[i] == row;
    PlanRowIsRight(d, row);
    assert rows[i] in multiset(plan);
    if Shown(plan, row) {
      assert c in multiset(rows + Deletions(prunes));
      DeletionsDelete(prunes);
      var j :| 0 <= j < |rows| && rows[j] == c;
      PlanRowIsRight(d, desired[j]);
      assert RowKey(desired[j]) == RowKey(desired[i]);
    }
  }

  lemma PlanShowsConflicts(d: Durable, w: Work, plan: seq<Change>, prunes: seq<Entry>)
    requires UpperNames(d.remote) && Lists(d, w) && PlanOf(w.desired, d.ledger, NameSet(d.remote), plan, prunes)
    ensures Conflicted(d, w.desired, {}) <==>
            exists row | row in w.desired :: Hidden(d, row) || (Shown(plan, row) && !Missed(d, row))
  {
    forall row | row in w.desired ensures Refused(d, row, {}) <==> Hidden(d, row) || (Shown(plan, row) && !Missed(d, row)) {
      PlanRowIsRight(d, row);
      ShownIsPlanned(d, w.desired, plan, prunes, row);
    }
  }

  lemma PlanResolves(d: Durable, desired: seq<DesiredRow>, prunes: seq<Entry>)
    requires UpperNames(d.remote) && WellKeyed(d.ledger) && !Conflicted(d, desired, {})
    ensures Resolved(PlanRows(desired, d.ledger, NameSet(d.remote)) + Deletions(prunes)) ==
            RowChanges(d, desired, {}) + Deletions(prunes)
  {
    var rows := PlanRows(desired, d.ledger, NameSet(d.remote));
    RowChangesAt(d, desired);
    forall i | 0 <= i < |rows| ensures Resolve(rows[i]) == RowChanges(d, desired, {})[i] {
      assert desired[i] in desired && !Refused(d, desired[i], {});
      PlanRowIsRight(d, desired[i]);
    }
    DeletionsDelete(prunes);
    assert Resolved(rows + Deletions(prunes)) == Resolved(rows) + Resolved(Deletions(prunes));
    forall i | 0 <= i < |prunes| ensures Resolved(Deletions(prunes))[i] == Deletions(prunes)[i] {
      assert Deletions(prunes)[i] in Deletions(prunes);
      assert Resolved(Deletions(prunes))[i] == Resolve(Deletions(prunes)[i]);
    }
    assert Resolved(rows) == RowChanges(d, desired, {});
  }

  /**
   A sync is refused exactly when some name the plan cannot see is taken, or the
   plan shows a conflict on a name that is not merely marked missing; otherwise it
   reports the planned changes, with unknown and conflicting ones creations.
   */
  lemma PlanAgreesWithSync(d: Durable, w: Work, plan: seq<Change>)
    requires Prepared(d, w) && w.completed == {} && UpperNames(d.remote)
    requires Plans(w.desired, d.ledger, NameSet(d.remote), plan)
    ensures Conflicted(d, w.desired, {}) <==>
            exists row | row in w.desired :: Hidden(d, row) || (Shown(plan, row) && !Missed(d, row))
    ensures !Conflicted(d, w.desired, {}) ==> multiset(Resolved(plan)) == multiset(Report(d, w))
    ensures PlanOf(w.desired, d.ledger, NameSet(d.remote), plan, w.prunes)
  {
    var prunes :| PlanOf(w.desired, d.ledger, NameSet(d.remote), plan, prunes);
    PlanShowsConflicts(d, w, plan, prunes);
    LeftOverIsUnique(prunes, w.prunes, Keys(w.desired), d.ledger, false);
    MapPermutes(Deletion, prunes, w.prunes);
    if !Conflicted(d, w.desired, {}) {
      PlanResolves(d, w.desired, prunes);
      MapPermutes(Resolve, plan, PlanRows(w.desired, d.ledger, NameSet(d.remote)) + Deletions(prunes));
    }
  }

  /**
   What Plan returned foretells what Sync of the same request, left uninterrupted,
   then returns. Validated names are in upper case, so only variables are hidden.
   */
  lemma PlanForetellsSync(prefix: string, manifest: seq<ManifestEntry>, d: Durable, plan: seq<Change>,
                          w: Work, ending: Ending, changes: seq<Change>)
    requires ManifestOk(prefix, manifest) && (manifest != [] || Upper(prefix) == prefix) && UpperNames(d.remote)
    requires Plans(Desired(prefix, manifest, true), d.ledger, NameSet(d.remote), plan)
    requires w.desired == Desired(prefix, manifest, true) && w.completed == {} && Prepared(d, w)
    requires ending == if Conflicted(d, w.desired, w.completed) then Refusal else Synchronized
    requires ending.Synchronized? ==> changes == Report(d, w)
    ensures ending.Refusal? <==> exists row | row in w.desired ::
              (row.surface.Variable? && Foreign(CellOf(d, RowKey(row)))) || (Shown(plan, row) && !Missed(d, row))
    ensures ending.Synchronized? ==> multiset(Resolved(plan)) == multiset(changes)
  {
    PlanAgreesWithSync(d, w, plan);
    forall row | row in w.desired ensures Upper(row.name) == row.name { DesiredIsUpper(prefix, manifest, row); }
    assert forall row | row in w.desired :: Hidden(d, row) <==> row.surface.Variable? && Foreign(CellOf(d, RowKey(row)));
  }

  lemma DesiredIsUpper(prefix: string, manifest: seq<ManifestEntry>, row: DesiredRow)
    requires ManifestOk(prefix, manifest) && (manifest != [] || Upper(prefix) == prefix) && row in Desired(prefix, manifest, true)
    ensures Upper(row.name) == row.name
  {
    var e := DesiredIsSentinelOrEntry(prefix, manifest, row);
    if e.Some? {
      ValidNameIsNormal(prefix, e.value);
    } else {
      if manifest != [] { PrefixIsUpper(prefix, manifest[0]); }
      SentinelIsUpper(prefix);
    }
  }

  lemma SentinelIsUpper(prefix: string)
    requires Upper(prefix) == prefix
    ensures Upper(prefix + SENTINEL) == prefix + SENTINEL
  {
    UpperConcat(prefix, SENTINEL);
    UpperIsIdentity(SENTINEL);
  }

  lemma UpperConcat(a: string, b: string)
    ensures Upper(a + b) == Upper(a) + Upper(b)
  {}

  lemma PrefixIsUpper(prefix: string, e: ManifestEntry)
    requires EntryOk(prefix, e)
    ensures Upper(prefix) == prefix
  {
    ValidNameIsNormal(prefix, e);
    UpperConcat(prefix, e.name);
    assert Upper(prefix + e.name)[..|prefix|] == Upper(prefix) && (prefix + e.name)[..|prefix|] == prefix;
  }

  // ---- Where plan and sync part ---------------------------------------------------------------

  lemma PlanExists(desired: seq<DesiredRow>, ledger: map<Key, Entry>, providerSecrets: set<string>) returns (plan: seq<Change>)
    requires WellKeyed(ledger)
    ensures Plans(desired, ledger, providerSecrets, plan)
  {
    EntryLeqIsPreorder();
    var prunes := LeftOverExists(Keys(desired), ledger, false, EntryLeq);
    ChangeLeqIsPreorder();
    var changes := PlanRows(desired, ledger, providerSecrets) + Deletions(prunes);
    SortSorts(changes, ChangeLeq);
    plan := Sort(changes, ChangeLeq);
    assert PlanOf(desired, ledger, providerSecrets, plan, prunes);
  }

  lemma PlannedRow(desired: seq<DesiredRow>, ledger: map<Key, Entry>, providerSecrets: set<string>, plan: seq<Change>, c: Change)
    returns (row: Option<DesiredRow>)
    requires Plans(desired, ledger, providerSecrets, plan) && c in plan
    ensures row.None? ==> c.disposition.Delete?
    ensures row.Some? ==> row.value in desired && c == PlanRow(row.value, ledger, providerSecrets)
  {
    var prunes :| PlanOf(desired, ledger, providerSecrets, plan, prunes);
    var rows := PlanRows(desired, ledger, providerSecrets);
    assert c in multiset(rows + Deletions(prunes));
    DeletionsDelete(prunes);
    if c in rows {
      var i :| 0 <= i < |rows| && rows[i] == c;
      row := Some(desired[i]);
    } else {
      row := None;
    }
  }

  lemma EntryIsDesired(prefix: string, manifest: seq<ManifestEntry>, e: ManifestEntry)
    requires e in manifest
    ensures ManifestRow(prefix, e) in Desired(prefix, manifest, true)
  {
    var unsorted := Unsorted(prefix, manifest, true);
    var i :| 0 <= i < |manifest| && manifest[i] == e;
    assert unsorted[i + 2] == ManifestRow(prefix, e);
    assert ManifestRow(prefix, e) in multiset(unsorted);
  }

  /** A variable of the manifest that somebody else holds refuses the sync, and the plan shows no conflict at all. */
  lemma HiddenVariableSurprises(prefix: string, manifest: seq<ManifestEntry>, e: ManifestEntry, value: string, plan: seq<Change>)
    requires ManifestOk(prefix, manifest) && e in manifest && e.classification.ConfigClassification?
    requires var remote := map[RowKey(ManifestRow(prefix, e)) := value]; Plans(Desired(prefix, manifest, true), map[], NameSet(remote), plan)
    ensures Conflicted(Durable(map[], map[RowKey(ManifestRow(prefix, e)) := value]), Desired(prefix, manifest, true), {})
    ensures forall c | c in plan :: !c.disposition.Conflict?
  {
    var row := ManifestRow(prefix, e);
    var d := Durable(map[], map[RowKey(row) := value]);
    EntryIsDesired(prefix, manifest, e);
    assert Refused(d, row, {});
    assert NameSet(d.remote) == {};
    forall c | c in plan ensures !c.disposition.Conflict? {
      var planned := PlannedRow(Desired(prefix, manifest, true), map[], {}, plan, c);
    }
  }

  /** A held secret marked missing and yet present: the plan shows a conflict on it, and the sync goes through. */
  lemma MissingSecretSurprises(prefix: string, manifest: seq<ManifestEntry>, e: ManifestEntry, value: string, plan: seq<Change>)
    requires ManifestOk(prefix, manifest) && e in manifest && e.classification.SecretClassification?
    requires var row := ManifestRow(prefix, e);
             Plans(Desired(prefix, manifest, true), map[RowKey(row) := Entry(row.surface, row.name, Owned, true)],
                   NameSet(map[RowKey(row) := value]), plan)
    ensures var row := ManifestRow(prefix, e);
            var d := Durable(map[RowKey(row) := Entry(row.surface, row.name, Owned, true)], map[RowKey(row) := value]);
            Shown(plan, row) && !Conflicted(d, Desired(prefix, manifest, true), {})
  {
    var row, desired := ManifestRow(prefix, e), Desired(prefix, manifest, true);
    var d := Durable(map[RowKey(row) := Entry(row.surface, row.name, Owned, true)], map[RowKey(row) := value]);
    var prunes :| PlanOf(desired, d.ledger, NameSet(d.remote), plan, prunes);
    EntryIsDesired(prefix, manifest, e);
    DesiredKeysAreDistinct(prefix, manifest, true);
    ValidNameIsNormal(prefix, e);
    UpperTwice(row.name);
    ShownIsPlanned(d, desired, plan, prunes, row);
    assert RowKey(row) in d.remote && Upper(RowKey(row).name) == row.name;
    assert row.name in NameSet(d.remote);
    forall other | other in desired ensures !Refused(d, other, {}) {
      assert RowKey(other) == RowKey(row) || RowKey(other) !in d.remote;
    }
  }

  function ExampleManifest(c: Classification): seq<ManifestEntry> {
    [ManifestEntry("key", "A", c, "value")]
  }

  lemma ExampleIsValid(c: Classification)
    requires !c.OtherClassification?
    ensures ManifestOk("", ExampleManifest(c)) && ManifestRow("", ExampleManifest(c)[0]) == DesiredRow("key", "value", SurfaceOf(c), "A")
  {
    assert "" + "A" == "A" && |"" + SENTINEL| == 16;
  }

  /** The variable A, present at the provider and held by nobody. */
  lemma HiddenVariableExample() returns (plan: seq<Change>)
    ensures var m := ExampleManifest(ConfigClassification);
            var d := Durable(map[], map[Key(Variable, "A") := "theirs"]);
            && ManifestOk("", m) && Plans(Desired("", m, true), d.ledger, NameSet(d.remote), plan)
            && Conflicted(d, Desired("", m, true), {}) && forall c | c in plan :: !c.disposition.Conflict?
  {
    var m := ExampleManifest(ConfigClassification);
    ExampleIsValid(ConfigClassification);
    UpperIsIdentity("A");
    var d := Durable(map[], map[Key(Variable, "A") := "theirs"]);
    plan := PlanExists(Desired("", m, true), d.ledger, NameSet(d.remote));
    HiddenVariableSurprises("", m, m[0], "theirs", plan);
  }

  /** The secret A, owned, marked missing, and present. */
  lemma MissingSecretExample() returns (plan: seq<Change>)
    ensures var m := ExampleManifest(SecretClassification);
            var d := Durable(map[Key(Secret, "A") := Entry(Secret, "A", Owned, true)], map[Key(Secret, "A") := "ours"]);
            && ManifestOk("", m) && Plans(Desired("", m, true), d.ledger, NameSet(d.remote), plan)
            && Change(Secret, "A", Conflict) in plan && !Conflicted(d, Desired("", m, true), {})
  {
    var m := ExampleManifest(SecretClassification);
    ExampleIsValid(SecretClassification);
    UpperIsIdentity("A");
    var d := Durable(map[Key(Secret, "A") := Entry(Secret, "A", Owned, true)], map[Key(Secret, "A") := "ours"]);
    plan := PlanExists(Desired("", m, true), d.ledger, NameSet(d.remote));
    MissingSecretSurprises("", m, m[0], "ours", plan);
  }

  // ---- Names stay in upper case -----------------------------------------------------------------

  lemma UpperTwice(s: string)
    ensures Upper(Upper(s)) == Upper(s)
  {}

  lemma {:induction false} ExecNames(d: Durable, ops: seq<Op>, k: Key)
    requires k in Exec(d, ops).remote && k !in d.remote
    ensures exists op | op in ops :: op.key == k
  {
    var front, last := ops[..|ops| - 1], ops[|ops| - 1];
    if last.key != k {
      ExecNames(d, front, k);
      var op :| op in front && op.key == k;
      assert op in ops;
    } else {
      assert last in ops;
    }
  }

  lemma UnitNames(d: Durable, w: Work, u: Unit)
    requires u in Units(d, w)
    ensures Upper(u.key.name) == u.key.name
  {
    var head := DesiredUnits(d, w.desired, w.completed);
    DesiredUnitsAt(d, w.desired, w.completed);
    if u in head {
      var i :| 0 <= i < |head| && head[i] == u;
      UpperTwice(w.desired[i].name);
    } else if u in ReservationUnits(w.reservations) {
      var i :| 0 <= i < |w.reservations| && u == ReservationUnits(w.reservations)[i];
      UpperTwice(w.reservations[i].name);
    } else {
      var i :| 0 <= i < |w.prunes| && u == PruneUnits(w.prunes)[i];
      UpperTwice(w.prunes[i].name);
    }
  }

  /** A sync, stopped anywhere, writes names in upper case only. */
  lemma SyncKeepsUpperNames(d: Durable, w: Work, n: nat)
    requires Lists(d, w) && UpperNames(d.remote)
    ensures UpperNames(Stopped(d, w, n).remote)
  {
    UnitsAreOk(d, w);
    FlattenKeys(Units(d, w));
    forall k | k in Stopped(d, w, n).remote ensures Upper(k.name) == k.name {
      if k !in d.remote {
        ExecNames(d, Upto(Script(d, w), n), k);
        var op :| op in Upto(Script(d, w), n) && op.key == k;
        assert op in Script(d, w);
        var u :| u in Units(d, w) && u.key == op.key;
        UnitNames(d, w, u);
      }
    }
  }
}
