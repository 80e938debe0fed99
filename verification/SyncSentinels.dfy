/**
 Sentinel bracketing: whenever the ledger holds a managed key, both management
 sentinels stand at the provider, after any crash of any sequence of syncs and
 teardowns. Teardown recognises sentinels by name suffix, so this holds exactly
 when every teardown finds its held rows in an order that prunes sentinels last.
 */
module SyncSentinels {
  import opened Common
  import opened Sorting
  import opened Ledger
  import opened SyncScript
  import opened SyncConvergence

  function SentinelKey(prefix: string, surface: Surface): Key {
    RowKey(SentinelRow(prefix, surface))
  }

  predicate IsSentinel(prefix: string, k: Key) {
    k == SentinelKey(prefix, Secret) || k == SentinelKey(prefix, Variable)
  }

  /** The ledger holds a managed key: it was dispatched or is owned. */
  predicate Holds(d: Durable, prefix: string, k: Key) {
    k in d.ledger && !IsSentinel(prefix, k) && !d.ledger[k].state.Reserved?
  }

  ghost predicate Bracketed(d: Durable, prefix: string) {
    (exists k :: Holds(d, prefix, k)) ==>
      SentinelKey(prefix, Secret) in d.remote && SentinelKey(prefix, Variable) in d.remote
  }

  /** A sentinel's own row carries a name that ends like one. */
  ghost predicate SentinelsNamed(d: Durable, prefix: string) {
    forall s | IsSentinel(prefix, s) && s in d.ledger :: HasSuffix(d.ledger[s].name, SENTINEL)
  }

  /** A sync that desires both sentinels first. */
  ghost predicate OrdinaryWork(w: Work, prefix: string) {
    SentinelsFirst(prefix, w.desired)
  }

  ghost predicate TeardownWork(w: Work) {
    w.desired == [] && SortedBy(w.prunes, EntryLeqSentinelsLast)
  }

  // ---- One stopped sync ----------------------------------------------------------------------

  lemma DesiredValueStays(d: Durable, w: Work, n: nat, k: Key)
    requires WorkOf(d, w) && k in Keys(w.desired) && k in d.remote
    ensures k in Stopped(d, w, n).remote
  {
    var m := StoppedAt(d, w, n, k);
    DesiredCellStays(CellOf(d, k), k, Target(w.desired, k), k in w.completed, m);
    assert CellOf(Stopped(d, w, n), k).value.Some?;
  }

  lemma DesiredCellStays(c: Cell, k: Key, target: Option<DesiredRow>, completed: bool, m: nat)
    requires CellKeyed(c, k) && CellFits(c, k, target, completed) && target.Some? && c.value.Some? && m <= |CellOps(c, k, target, completed)|
    ensures ExecCell(c, CellOps(c, k, target, completed)[..m]).value.Some?
  {
    if Blocked(c, target) { RefusalIsSafe(c, k, target, completed, m); } else { ExecIsStage(c, k, target, completed, m); }
  }

  lemma SentinelsStayNamed(d: Durable, w: Work, n: nat, prefix: string)
    requires WorkOf(d, w) && SentinelsNamed(d, prefix) && (OrdinaryWork(w, prefix) || TeardownWork(w))
    ensures SentinelsNamed(Stopped(d, w, n), prefix) && WellKeyed(Stopped(d, w, n).ledger)
  {
    HappenIsSafe(d, Synced(n, w), Key(Secret, ""));
    forall s | IsSentinel(prefix, s) && s in Stopped(d, w, n).ledger ensures HasSuffix(Stopped(d, w, n).ledger[s].name, SENTINEL) {
      var m := StoppedAt(d, w, n, s);
      EntryNameStays(CellOf(d, s), s, Target(w.desired, s), s in w.completed, m);
      if OrdinaryWork(w, prefix) {
        SentinelsAreDesired(w, prefix, s);
        SameRow(w.desired, if s == RowKey(w.desired[0]) then 0 else 1);
        assert (prefix + SENTINEL)[|prefix|..] == SENTINEL;
      }
    }
  }

  lemma EntryNameStays(c: Cell, k: Key, target: Option<DesiredRow>, completed: bool, m: nat)
    requires CellKeyed(c, k) && CellFits(c, k, target, completed) && m <= |CellOps(c, k, target, completed)|
    ensures var e := ExecCell(c, CellOps(c, k, target, completed)[..m]).entry;
            e.Some? ==> (c.entry.Some? && e.value.name == c.entry.value.name) || (c.entry.None? && target.Some? && e.value.name == target.value.name)
  {
    if completed && target.Some? {
    } else if Blocked(c, target) {
      ExecIsRefusal(c, target.value, m);
    } else {
      ExecIsStage(c, k, target, completed, m);
    }
  }

  lemma TouchedUnit(d: Durable, w: Work, n: nat, k: Key) returns (j: nat)
    requires WorkOf(d, w) && CellOf(Stopped(d, w, n), k) != CellOf(d, k)
    ensures j < |Units(d, w)| && Units(d, w)[j].key == k && Share(Units(d, w), n, k) != []
  {
    var units := Units(d, w);
    UnitsAreOk(d, w);
    ShareDecides(d, w, n, k);
    if forall u | u in units :: u.key != k { ShareOfOthers(units, n, k); }
    j :| 0 <= j < |units| && units[j].key == k;
  }

  /** A unit that ran in full and was not refused leaves its desired value behind. */
  lemma FinishedRowIsPresent(d: Durable, w: Work, n: nat, i: nat)
    requires WorkOf(d, w) && i < |w.desired| && i < |DesiredUnits(d, w.desired, w.completed)|
    requires !Refused(d, w.desired[i], w.completed)
    requires Share(Units(d, w), n, RowKey(w.desired[i])) == Units(d, w)[i].ops
    ensures RowKey(w.desired[i]) in Stopped(d, w, n).remote
  {
    var k := RowKey(w.desired[i]);
    DesiredUnitsAt(d, w.desired, w.completed);
    SameRow(w.desired, i);
    ShareDecides(d, w, n, k);
    var c, target, done := CellOf(d, k), Target(w.desired, k), k in w.completed;
    var ops := CellOps(c, k, target, done);
    assert Units(d, w)[i].ops == ops && ops[..|ops|] == ops;
    PrefixKeepsFinal(c, k, target, done, |ops|);
    assert CellOf(Stopped(d, w, n), k).value.Some?;
  }

  lemma SentinelsAreDesired(w: Work, prefix: string, k: Key)
    requires SentinelsFirst(prefix, w.desired) && IsSentinel(prefix, k)
    ensures k in Keys(w.desired) && (k == RowKey(w.desired[0]) || k == RowKey(w.desired[1]))
  {
    assert w.desired[0] in w.desired && w.desired[1] in w.desired;
  }

  lemma NewlyHeldFollowsSentinels(d: Durable, w: Work, n: nat, prefix: string, k: Key, s: Key)
    requires WorkOf(d, w) && OrdinaryWork(w, prefix) && IsSentinel(prefix, s)
    requires Holds(Stopped(d, w, n), prefix, k) && !Holds(d, prefix, k)
    ensures s in Stopped(d, w, n).remote
  {
    var units, head := Units(d, w), DesiredUnits(d, w.desired, w.completed);
    UnitsAreOk(d, w);
    DesiredUnitsAt(d, w.desired, w.completed);
    var j := TouchedUnit(d, w, n, k);
    SentinelsAreDesired(w, prefix, s);
    var i := if s == RowKey(w.desired[0]) then 0 else 1;
    assert IsSentinel(prefix, RowKey(w.desired[0])) && IsSentinel(prefix, RowKey(w.desired[1]));
    assert forall i | 0 <= i < 2 && i < |units| :: units[i].key == RowKey(w.desired[i]);
    ShareOrder(units, n, i, j);
    FinishedRowIsPresent(d, w, n, i);
  }

  lemma OrdinaryKeepsBracket(d: Durable, w: Work, n: nat, prefix: string)
    requires WorkOf(d, w) && OrdinaryWork(w, prefix) && Bracketed(d, prefix)
    ensures Bracketed(Stopped(d, w, n), prefix)
  {
    if k :| Holds(Stopped(d, w, n), prefix, k) {
      forall s | IsSentinel(prefix, s) ensures s in Stopped(d, w, n).remote {
        if Holds(d, prefix, k) {
          SentinelsAreDesired(w, prefix, s);
          DesiredValueStays(d, w, n, s);
        } else {
          NewlyHeldFollowsSentinels(d, w, n, prefix, k, s);
        }
      }
    }
  }

  // ---- Teardown ---------------------------------------------------------------------------------

  /** Where teardown prunes a held row relative to a sentinel's row. */
  predicate Precedes(e: Entry, sentinel: Entry) {
    !HasSuffix(e.name, SENTINEL) || EntryLeq(e, sentinel)
  }

  lemma TeardownUnit(d: Durable, w: Work, i: nat)
    requires w.desired == [] && i < |w.prunes|
    ensures |w.reservations| + i < |Units(d, w)| && Units(d, w)[|w.reservations| + i] == Unit(EntryKey(w.prunes[i]), PruneOps(w.prunes[i]))
  {
    assert DesiredUnits(d, w.desired, w.completed) == [];
    assert Units(d, w) == ReservationUnits(w.reservations) + PruneUnits(w.prunes);
  }

  lemma PruneIndex(d: Durable, w: Work, k: Key) returns (i: nat)
    requires WorkOf(d, w) && w.desired == [] && k in d.ledger && !d.ledger[k].state.Reserved?
    ensures i < |w.prunes| && w.prunes[i] == d.ledger[k] && EntryKey(w.prunes[i]) == k
  {
    assert k !in Keys(w.desired);
    i :| 0 <= i < |w.prunes| && w.prunes[i] == d.ledger[k];
  }

  lemma PrunedInFull(d: Durable, w: Work, n: nat, i: nat)
    requires WorkOf(d, w) && w.desired == [] && i < |w.prunes|
    requires Share(Units(d, w), n, EntryKey(w.prunes[i])) == PruneOps(w.prunes[i])
    ensures CellOf(Stopped(d, w, n), EntryKey(w.prunes[i])) == Cell(None, None)
  {
    var k, ops := EntryKey(w.prunes[i]), PruneOps(w.prunes[i]);
    assert w.prunes[i] in w.prunes;
    ShareDecides(d, w, n, k);
    assert ops == CellOps(CellOf(d, k), k, None, k in w.completed) && ops[..|ops|] == ops;
    PrefixKeepsFinal(CellOf(d, k), k, None, k in w.completed, |ops|);
  }

  /** Teardown never creates a row. */
  lemma TeardownOnlyDrops(d: Durable, w: Work, n: nat, k: Key)
    requires WorkOf(d, w) && w.desired == [] && k in Stopped(d, w, n).ledger
    ensures k in d.ledger && d.ledger[k] == Stopped(d, w, n).ledger[k]
  {
    var m := StoppedAt(d, w, n, k);
    ExecIsStage(CellOf(d, k), k, None, k in w.completed, m);
    assert CellOf(Stopped(d, w, n), k).entry == Some(Stopped(d, w, n).ledger[k]);
  }

  lemma LostSentinelIsPruned(d: Durable, w: Work, n: nat, s: Key)
    requires WorkOf(d, w) && w.desired == [] && s in d.remote && s !in Stopped(d, w, n).remote
    ensures s in d.ledger && !d.ledger[s].state.Reserved? && Share(Units(d, w), n, s) != []
  {
    assert CellOf(Stopped(d, w, n), s) != CellOf(d, s);
    var j := TouchedUnit(d, w, n, s);
    var m := StoppedAt(d, w, n, s);
    ExecIsStage(CellOf(d, s), s, None, s in w.completed, m);
  }

  predicate HeldSentinel(d: Durable, s: Key) {
    s in d.ledger && !d.ledger[s].state.Reserved? && HasSuffix(d.ledger[s].name, SENTINEL)
  }

  /** Any later prune that has begun leaves this one finished. */
  lemma EarlierUnitRan(units: seq<Unit>, n: nat, p: nat, q: nat)
    requires UnitsOk(units) && p < q < |units|
    ensures Share(units, n, units[q].key) == [] || Share(units, n, units[p].key) == units[p].ops
  {
    if Share(units, n, units[q].key) != [] { ShareOrder(units, n, p, q); }
  }

  lemma TeardownUnits(d: Durable, w: Work) returns (units: seq<Unit>, r: nat)
    requires WorkOf(d, w) && w.desired == []
    ensures units == Units(d, w) && UnitsOk(units) && |units| == r + |w.prunes|
    ensures forall i | 0 <= i < |w.prunes| :: units[r + i] == Unit(EntryKey(w.prunes[i]), PruneOps(w.prunes[i]))
  {
    units, r := Units(d, w), |w.reservations|;
    UnitsAreOk(d, w);
    forall i | 0 <= i < |w.prunes| ensures units[r + i] == Unit(EntryKey(w.prunes[i]), PruneOps(w.prunes[i])) {
      TeardownUnit(d, w, i);
    }
  }

  lemma EarlierPruneRan(units: seq<Unit>, prunes: seq<Entry>, r: nat, n: nat, i: nat, j: nat)
    requires UnitsOk(units) && i < j < |prunes| && |units| == r + |prunes| && Share(units, n, EntryKey(prunes[j])) != []
    requires forall i | 0 <= i < |prunes| :: units[r + i] == Unit(EntryKey(prunes[i]), PruneOps(prunes[i]))
    ensures Share(units, n, EntryKey(prunes[i])) == PruneOps(prunes[i])
  {
    EarlierUnitRan(units, n, r + i, r + j);
  }

  lemma PrunesInOrder(d: Durable, w: Work, n: nat, i: nat, j: nat)
    requires WorkOf(d, w) && w.desired == [] && i < j < |w.prunes|
    requires Share(Units(d, w), n, EntryKey(w.prunes[j])) != []
    ensures CellOf(Stopped(d, w, n), EntryKey(w.prunes[i])) == Cell(None, None)
  {
    assert Share(Units(d, w), n, EntryKey(w.prunes[i])) == PruneOps(w.prunes[i]) by {
      var units, r := TeardownUnits(d, w);
      EarlierPruneRan(units, w.prunes, r, n, i, j);
    }
    PrunedInFull(d, w, n, i);
  }

  lemma TeardownKeepsSentinel(d: Durable, w: Work, n: nat, k: Key, s: Key)
    requires WorkOf(d, w) && TeardownWork(w) && k != s
    requires k in Stopped(d, w, n).ledger && !Stopped(d, w, n).ledger[k].state.Reserved?
    requires k in d.ledger && s in d.remote
    requires s in d.ledger && !d.ledger[s].state.Reserved? ==> HeldSentinel(d, s) && Precedes(d.ledger[k], d.ledger[s])
    ensures s in Stopped(d, w, n).remote
  {
    TeardownOnlyDrops(d, w, n, k);
    if s !in Stopped(d, w, n).remote {
      LostSentinelIsPruned(d, w, n, s);
      var i := PruneIndex(d, w, k);
      var j := PruneIndex(d, w, s);
      OrderIsStrict(w, i, j);
      PrunesInOrder(d, w, n, i, j);
    }
  }

  /** In the pruning order a held row comes before a sentinel's row exactly when it precedes it. */
  lemma OrderIsStrict(w: Work, i: nat, j: nat)
    requires SortedBy(w.prunes, EntryLeqSentinelsLast) && DistinctBy(w.prunes, EntryKey)
    requires i < |w.prunes| && j < |w.prunes| && i != j && HasSuffix(w.prunes[j].name, SENTINEL)
    ensures i < j <==> Precedes(w.prunes[i], w.prunes[j])
  {
    var a, b := w.prunes[i], w.prunes[j];
    assert EntryKey(a) != EntryKey(b);
    StringLeqTotal(a.name, b.name);
    if i < j { assert EntryLeqSentinelsLast(a, b); } else { assert EntryLeqSentinelsLast(b, a); }
  }

  /** Every held key is pruned before every held sentinel. */
  ghost predicate OrderSafe(d: Durable, prefix: string) {
    forall k, s | Holds(d, prefix, k) && IsSentinel(prefix, s) && s in d.ledger && !d.ledger[s].state.Reserved? ::
      Precedes(d.ledger[k], d.ledger[s])
  }

  lemma TeardownKeepsBracket(d: Durable, w: Work, n: nat, prefix: string)
    requires WorkOf(d, w) && TeardownWork(w) && Bracketed(d, prefix) && SentinelsNamed(d, prefix) && OrderSafe(d, prefix)
    ensures Bracketed(Stopped(d, w, n), prefix)
  {
    if k :| Holds(Stopped(d, w, n), prefix, k) {
      TeardownOnlyDrops(d, w, n, k);
      assert Holds(d, prefix, k);
      forall s | IsSentinel(prefix, s) ensures s in Stopped(d, w, n).remote {
        TeardownKeepsSentinel(d, w, n, k, s);
      }
    }
  }

  // ---- Exactly when teardown order is safe ---------------------------------------------------------------

  /** Some stop between two units has run the earlier ones in full and the later ones not at all. */
  lemma {:induction false} Boundary(units: seq<Unit>, p: nat) returns (n: nat)
    requires UnitsOk(units) && p <= |units|
    ensures forall q | 0 <= q < |units| :: Share(units, n, units[q].key) == if q < p then units[q].ops else []
  {
    if p == 0 {
      n := 0;
      forall q | 0 <= q < |units| ensures Share(units, n, units[q].key) == [] { ShareOfNothing(units, units[q].key); }
    } else {
      assert UnitsOk(units[1..]);
      var m := Boundary(units[1..], p - 1);
      n := |units[0].ops| + m;
      forall q: nat | q < |units| ensures Share(units, n, units[q].key) == if q < p then units[q].ops else [] {
        BoundaryStep(units, m, q);
      }
    }
  }

  lemma BoundaryStep(units: seq<Unit>, m: nat, q: nat)
    requires UnitsOk(units) && q < |units|
    ensures q == 0 ==> Share(units, |units[0].ops| + m, units[q].key) == units[q].ops
    ensures q > 0 ==> units[1..][q - 1] == units[q] && Share(units, |units[0].ops| + m, units[q].key) == Share(units[1..], m, units[q].key)
  {
    if q == 0 { ShareHead(units, |units[0].ops| + m); } else { ShareRest(units, |units[0].ops| + m, q); }
  }

  lemma BoundaryBehind(units: seq<Unit>, prunes: seq<Entry>, r: nat, i: nat, j: nat) returns (n: nat)
    requires UnitsOk(units) && j < i < |prunes| && |units| == r + |prunes|
    requires forall i | 0 <= i < |prunes| :: units[r + i] == Unit(EntryKey(prunes[i]), PruneOps(prunes[i]))
    ensures Share(units, n, EntryKey(prunes[j])) == PruneOps(prunes[j]) && Share(units, n, EntryKey(prunes[i])) == []
  {
    n := Boundary(units, r + j + 1);
    assert units[r + j].key == EntryKey(prunes[j]) && units[r + i].key == EntryKey(prunes[i]);
  }

  lemma StoppedBehind(d: Durable, w: Work, i: nat, j: nat) returns (n: nat)
    requires WorkOf(d, w) && w.desired == [] && j < i < |w.prunes|
    ensures CellOf(Stopped(d, w, n), EntryKey(w.prunes[j])) == Cell(None, None)
    ensures CellOf(Stopped(d, w, n), EntryKey(w.prunes[i])) == CellOf(d, EntryKey(w.prunes[i]))
  {
    var units, r := TeardownUnits(d, w);
    n := BoundaryBehind(units, w.prunes, r, i, j);
    PrunedInFull(d, w, n, j);
    ShareDecides(d, w, n, EntryKey(w.prunes[i]));
  }

  /** Stopped right behind a held sentinel, teardown still holds whatever it prunes later. */
  lemma LateRowLosesItsSentinel(d: Durable, w: Work, prefix: string, k: Key, s: Key) returns (n: nat)
    requires WorkOf(d, w) && TeardownWork(w) && Holds(d, prefix, k)
    requires IsSentinel(prefix, s) && HeldSentinel(d, s) && !Precedes(d.ledger[k], d.ledger[s])
    ensures !Bracketed(Stopped(d, w, n), prefix)
  {
    var i := PruneIndex(d, w, k);
    var j := PruneIndex(d, w, s);
    OrderIsStrict(w, i, j);
    n := StoppedBehind(d, w, i, j);
    assert CellOf(Stopped(d, w, n), k).entry == Some(d.ledger[k]);
    assert Holds(Stopped(d, w, n), prefix, k);
    assert CellOf(Stopped(d, w, n), s).value.None?;
  }

  /**
   A teardown is bracketed at every crash point exactly when it starts bracketed
   and no held key is pruned behind a held sentinel.
   */
  lemma TeardownIsBracketedExactlyWhen(d: Durable, w: Work, prefix: string)
    requires WorkOf(d, w) && TeardownWork(w) && SentinelsNamed(d, prefix)
    ensures (forall n: nat :: Bracketed(Stopped(d, w, n), prefix)) <==> Bracketed(d, prefix) && OrderSafe(d, prefix)
  {
    assert Stopped(d, w, 0) == d;
    if Bracketed(d, prefix) && OrderSafe(d, prefix) {
      forall n: nat ensures Bracketed(Stopped(d, w, n), prefix) { TeardownKeepsBracket(d, w, n, prefix); }
    } else if Bracketed(d, prefix) {
      var k, s :| Holds(d, prefix, k) && IsSentinel(prefix, s) && s in d.ledger && !d.ledger[s].state.Reserved? &&
                  !Precedes(d.ledger[k], d.ledger[s]);
      var n := LateRowLosesItsSentinel(d, w, prefix, k, s);
    }
  }

  // ---- Whole histories ------------------------------------------------------------------------------

  ghost predicate ManagedHistory(d: Durable, prefix: string, attempts: seq<Attempt>)
    decreases |attempts|
  {
    attempts == [] ||
    (var w := attempts[0].work;
     WorkOf(d, w) && (OrdinaryWork(w, prefix) || TeardownWork(w)) &&
     ManagedHistory(Stopped(d, w, attempts[0].steps), prefix, attempts[1..]))
  }

  /** Every teardown of the history starts from an order that prunes sentinels last. */
  ghost predicate OrderedHistory(d: Durable, prefix: string, attempts: seq<Attempt>)
    decreases |attempts|
  {
    attempts == [] ||
    ((TeardownWork(attempts[0].work) ==> OrderSafe(d, prefix)) &&
     OrderedHistory(Stopped(d, attempts[0].work, attempts[0].steps), prefix, attempts[1..]))
  }

  /** Bracketed throughout, wherever any one attempt of the history is stopped instead. */
  ghost predicate AlwaysBracketed(d: Durable, prefix: string, attempts: seq<Attempt>)
    decreases |attempts|
  {
    && Bracketed(d, prefix)
    && (attempts == [] ||
        ((forall n: nat :: Bracketed(Stopped(d, attempts[0].work, n), prefix)) &&
         AlwaysBracketed(Stopped(d, attempts[0].work, attempts[0].steps), prefix, attempts[1..])))
  }

  lemma AttemptIsBracketedExactlyWhen(d: Durable, w: Work, prefix: string)
    requires WorkOf(d, w) && (OrdinaryWork(w, prefix) || TeardownWork(w)) && Bracketed(d, prefix) && SentinelsNamed(d, prefix)
    ensures (forall n: nat :: Bracketed(Stopped(d, w, n), prefix)) <==> (TeardownWork(w) ==> OrderSafe(d, prefix))
  {
    if TeardownWork(w) {
      TeardownIsBracketedExactlyWhen(d, w, prefix);
    } else {
      forall n: nat ensures Bracketed(Stopped(d, w, n), prefix) { OrdinaryKeepsBracket(d, w, n, prefix); }
    }
  }

  lemma {:induction false} HistoryIsBracketedExactlyWhen(d: Durable, prefix: string, attempts: seq<Attempt>)
    requires ManagedHistory(d, prefix, attempts) && Bracketed(d, prefix) && SentinelsNamed(d, prefix)
    ensures AlwaysBracketed(d, prefix, attempts) <==> OrderedHistory(d, prefix, attempts)
    ensures OrderedHistory(d, prefix, attempts) ==> Bracketed(After(d, attempts), prefix)
    decreases |attempts|
  {
    if attempts != [] {
      var w, n := attempts[0].work, attempts[0].steps;
      SentinelsStayNamed(d, w, n, prefix);
      AttemptIsBracketedExactlyWhen(d, w, prefix);
      if TeardownWork(w) ==> OrderSafe(d, prefix) {
        HistoryIsBracketedExactlyWhen(Stopped(d, w, n), prefix, attempts[1..]);
      }
    }
  }

  /**
   From an empty ledger on, a held key is bracketed by both sentinels at every
   crash point of every history exactly when its teardowns prune sentinels last.
   */
  lemma SentinelsBracketManagedKeys(remote: map<Key, string>, prefix: string, attempts: seq<Attempt>)
    requires ManagedHistory(Durable(map[], remote), prefix, attempts)
    ensures var d := Durable(map[], remote);
            && (AlwaysBracketed(d, prefix, attempts) <==> OrderedHistory(d, prefix, attempts))
            && (OrderedHistory(d, prefix, attempts) ==> Bracketed(After(d, attempts), prefix))
  {
    HistoryIsBracketedExactlyWhen(Durable(map[], remote), prefix, attempts);
  }

  // ---- Names that do not end like a sentinel -----------------------------------------------------------

  /** Only the sentinels' own rows carry a name ending like a sentinel. */
  ghost predicate SuffixMarksSentinels(d: Durable, prefix: string) {
    forall k | k in d.ledger :: HasSuffix(d.ledger[k].name, SENTINEL) <==> IsSentinel(prefix, k)
  }

  ghost predicate PlainWork(w: Work, prefix: string) {
    forall row | row in w.desired :: HasSuffix(row.name, SENTINEL) <==> IsSentinel(prefix, RowKey(row))
  }

  lemma NamesStay(d: Durable, w: Work, n: nat, prefix: string)
    requires WorkOf(d, w) && SuffixMarksSentinels(d, prefix) && PlainWork(w, prefix)
    ensures SuffixMarksSentinels(Stopped(d, w, n), prefix)
  {
    forall k | k in Stopped(d, w, n).ledger
      ensures HasSuffix(Stopped(d, w, n).ledger[k].name, SENTINEL) <==> IsSentinel(prefix, k)
    {
      var m := StoppedAt(d, w, n, k);
      EntryNameStays(CellOf(d, k), k, Target(w.desired, k), k in w.completed, m);
    }
  }

  /** Histories that never desire a key ending like a sentinel keep every teardown in order. */
  lemma {:induction false} PlainHistoryIsOrdered(d: Durable, prefix: string, attempts: seq<Attempt>)
    requires ManagedHistory(d, prefix, attempts) && SuffixMarksSentinels(d, prefix)
    requires forall a | a in attempts :: PlainWork(a.work, prefix)
    ensures OrderedHistory(d, prefix, attempts)
    decreases |attempts|
  {
    if attempts != [] {
      assert attempts[0] in attempts && forall a | a in attempts[1..] :: a in attempts;
      NamesStay(d, attempts[0].work, attempts[0].steps, prefix);
      PlainHistoryIsOrdered(Stopped(d, attempts[0].work, attempts[0].steps), prefix, attempts[1..]);
    }
  }

  /** A validated manifest desires its sentinels first, and without sentinel-like names nothing else ends like one. */
  lemma ManifestGivesOrdinaryWork(prefix: string, manifest: seq<ManifestEntry>, w: Work)
    requires ManifestOk(prefix, manifest) && w.desired == Desired(prefix, manifest, true)
    requires forall e | e in manifest :: e.keyId != ""
    ensures OrdinaryWork(w, prefix)
    ensures (forall e | e in manifest :: !HasSuffix(prefix + e.name, SENTINEL)) ==> PlainWork(w, prefix)
  {
    DesiredStartsWithSentinels(prefix, manifest);
    if forall e | e in manifest :: !HasSuffix(prefix + e.name, SENTINEL) {
      forall row | row in w.desired ensures HasSuffix(row.name, SENTINEL) <==> IsSentinel(prefix, RowKey(row)) {
        var e := DesiredIsSentinelOrEntry(prefix, manifest, row);
        if e.Some? {
          ValidNameIsNormal(prefix, e.value);
        } else {
          assert row.name[|prefix|..] == SENTINEL;
        }
      }
    }
  }

  // ---- What a manifest may name ---------------------------------------------------------------------------

  /** The row a completed sync leaves behind. */
  function OwnedEntry(row: DesiredRow): Entry {
    Entry(row.surface, row.name, Owned, false)
  }

  /** Teardown prunes the key before the secret sentinel. */
  predicate KeyPrecedes(prefix: string, e: ManifestEntry) {
    Precedes(OwnedEntry(ManifestRow(prefix, e)), OwnedEntry(SentinelRow(prefix, Secret)))
  }

  /** What a complete first sync of an untaken target leaves. */
  ghost predicate Fresh(remote: map<Key, string>, desired: seq<DesiredRow>, d: Durable) {
    Converged(Durable(map[], remote), desired, d)
  }

  lemma FreshRow(remote: map<Key, string>, desired: seq<DesiredRow>, d: Durable, row: DesiredRow)
    requires Fresh(remote, desired, d) && DistinctKeys(desired) && row in desired
    ensures RowKey(row) in d.ledger && d.ledger[RowKey(row)] == OwnedEntry(row) && RowKey(row) in d.remote
  {
    var i :| 0 <= i < |desired| && desired[i] == row;
    SameRow(desired, i);
    assert CellOf(d, RowKey(row)) == Cell(Some(OwnedEntry(row)), Some(row.value));
  }

  lemma FreshKey(remote: map<Key, string>, desired: seq<DesiredRow>, d: Durable, k: Key) returns (row: DesiredRow)
    requires Fresh(remote, desired, d) && DistinctKeys(desired) && k in d.ledger
    ensures row in desired && RowKey(row) == k && d.ledger[k] == OwnedEntry(row)
  {
    assert CellOf(d, k).entry == Some(d.ledger[k]);
    row := Target(desired, k).value;
    FreshRow(remote, desired, d, row);
  }

  lemma SentinelIsFresh(prefix: string, manifest: seq<ManifestEntry>, remote: map<Key, string>, d: Durable, surface: Surface)
    requires ManifestOk(prefix, manifest) && Fresh(remote, Desired(prefix, manifest, true), d)
    ensures var s := SentinelKey(prefix, surface); s in d.ledger && d.ledger[s] == OwnedEntry(SentinelRow(prefix, surface)) && s in d.remote
    ensures HasSuffix(prefix + SENTINEL, SENTINEL)
  {
    DesiredKeysAreDistinct(prefix, manifest, true);
    var p := SentinelIndex(prefix, manifest, surface);
    FreshRow(remote, Desired(prefix, manifest, true), d, SentinelRow(prefix, surface));
    assert (prefix + SENTINEL)[|prefix|..] == SENTINEL;
  }

  lemma EntryIsHeld(prefix: string, manifest: seq<ManifestEntry>, remote: map<Key, string>, d: Durable, e: ManifestEntry)
    requires ManifestOk(prefix, manifest) && Fresh(remote, Desired(prefix, manifest, true), d) && e in manifest
    ensures var k := RowKey(ManifestRow(prefix, e)); Holds(d, prefix, k) && d.ledger[k] == OwnedEntry(ManifestRow(prefix, e))
  {
    var i :| 0 <= i < |manifest| && manifest[i] == e;
    var unsorted := Unsorted(prefix, manifest, true);
    assert unsorted[i + 2] == ManifestRow(prefix, e);
    assert ManifestRow(prefix, e) in multiset(Desired(prefix, manifest, true));
    DesiredKeysAreDistinct(prefix, manifest, true);
    FreshRow(remote, Desired(prefix, manifest, true), d, ManifestRow(prefix, e));
    ValidNameIsNormal(prefix, e);
  }

  lemma FreshIsOrderedExactlyWhen(prefix: string, manifest: seq<ManifestEntry>, remote: map<Key, string>, d: Durable)
    requires ManifestOk(prefix, manifest) && Fresh(remote, Desired(prefix, manifest, true), d)
    ensures Bracketed(d, prefix) && SentinelsNamed(d, prefix)
    ensures OrderSafe(d, prefix) <==> forall e | e in manifest :: KeyPrecedes(prefix, e)
  {
    SentinelIsFresh(prefix, manifest, remote, d, Secret);
    SentinelIsFresh(prefix, manifest, remote, d, Variable);
    DesiredKeysAreDistinct(prefix, manifest, true);
    forall e | e in manifest && OrderSafe(d, prefix) ensures KeyPrecedes(prefix, e) {
      EntryIsHeld(prefix, manifest, remote, d, e);
      assert IsSentinel(prefix, SentinelKey(prefix, Secret));
    }
    if forall e | e in manifest :: KeyPrecedes(prefix, e) {
      forall k, s | Holds(d, prefix, k) && IsSentinel(prefix, s) ensures Precedes(d.ledger[k], d.ledger[s]) {
        var row := FreshKey(remote, Desired(prefix, manifest, true), d, k);
        var e := DesiredIsSentinelOrEntry(prefix, manifest, row);
        assert KeyPrecedes(prefix, e.value);
      }
    }
  }

  /**
   After a complete first sync of a validated manifest, teardown is bracketed at
   every crash point exactly when no key of the manifest ends like a sentinel and
   sorts behind the secret one.
   */
  lemma ManifestIsBracketedExactlyWhen(prefix: string, manifest: seq<ManifestEntry>, remote: map<Key, string>, first: Work, teardown: Work)
    requires ManifestOk(prefix, manifest) && first.desired == Desired(prefix, manifest, true)
    requires var d := Durable(map[], remote);
             && WorkOf(d, first) && NoneForeign(d, first.desired)
             && WorkOf(Stopped(d, first, |Script(d, first)|), teardown) && TeardownWork(teardown)
    ensures var d := Stopped(Durable(map[], remote), first, |Script(Durable(map[], remote), first)|);
            (forall n: nat :: Bracketed(Stopped(d, teardown, n), prefix)) <==> (forall e | e in manifest :: KeyPrecedes(prefix, e))
  {
    var empty := Durable(map[], remote);
    StopKeepsFinal(empty, first, |Script(empty, first)|);
    var d := Stopped(empty, first, |Script(empty, first)|);
    FreshIsOrderedExactlyWhen(prefix, manifest, remote, d);
    TeardownIsBracketedExactlyWhen(d, teardown, prefix);
  }

  lemma TeardownExists(d: Durable) returns (w: Work)
    requires WellKeyed(d.ledger)
    ensures WorkOf(d, w) && TeardownWork(w)
  {
    EntryLeqIsPreorder();
    var reservations := LeftOverExists({}, d.ledger, true, EntryLeq);
    var prunes := LeftOverExists({}, d.ledger, false, EntryLeqSentinelsLast);
    w := Work([], {}, reservations, prunes);
    assert Keys(w.desired) == {};
  }

  /** A complete first sync of an empty target and a teardown of it that, stopped somewhere, is not bracketed. */
  ghost predicate Escapes(prefix: string, manifest: seq<ManifestEntry>, first: Work, teardown: Work, n: nat) {
    var empty := Durable(map[], map[]);
    var d := Stopped(empty, first, |Script(empty, first)|);
    && first.desired == Desired(prefix, manifest, true)
    && WorkOf(empty, first) && Converged(empty, first.desired, d)
    && WorkOf(d, teardown) && TeardownWork(teardown) && !Bracketed(Stopped(d, teardown, n), prefix)
  }

  lemma FirstSync(prefix: string, manifest: seq<ManifestEntry>) returns (first: Work, teardown: Work)
    requires ManifestOk(prefix, manifest)
    ensures first.desired == Desired(prefix, manifest, true) && TeardownWork(teardown)
    ensures var empty := Durable(map[], map[]);
            var d := Stopped(empty, first, |Script(empty, first)|);
            WorkOf(empty, first) && NoneForeign(empty, first.desired) && Converged(empty, first.desired, d) && WorkOf(d, teardown)
  {
    var empty := Durable(map[], map[]);
    DesiredKeysAreDistinct(prefix, manifest, true);
    first := Work(Desired(prefix, manifest, true), {}, [], []);
    StopKeepsFinal(empty, first, |Script(empty, first)|);
    HappenIsSafe(empty, Synced(|Script(empty, first)|, first), Key(Secret, ""));
    teardown := TeardownExists(Stopped(empty, first, |Script(empty, first)|));
  }

  lemma UnorderedManifestEscapes(prefix: string, manifest: seq<ManifestEntry>, e: ManifestEntry)
    returns (first: Work, teardown: Work, n: nat)
    requires ManifestOk(prefix, manifest) && e in manifest && !KeyPrecedes(prefix, e)
    ensures Escapes(prefix, manifest, first, teardown, n)
  {
    var empty := Durable(map[], map[]);
    first, teardown := FirstSync(prefix, manifest);
    ManifestIsBracketedExactlyWhen(prefix, manifest, map[], first, teardown);
    n :| !Bracketed(Stopped(Stopped(empty, first, |Script(empty, first)|), teardown, n), prefix);
  }

  const LOOKALIKE := "A_MANAGED_BY_HIKYO"

  function LookalikeManifest(): seq<ManifestEntry> {
    [ManifestEntry("key", LOOKALIKE, ConfigClassification, "value")]
  }

  lemma Unprefixed(name: string)
    ensures "" + name == name
  {}

  lemma StartsElsewhere(name: string, p: string)
    requires name != "" && p != "" && name[0] != p[0]
    ensures !HasPrefix(name, p)
  {
    assert |p| <= |name| ==> name[..|p|][0] == name[0];
  }

  /** A variable that ends like a sentinel is always pruned behind the secret one. */
  lemma VariableComesLate(prefix: string, e: ManifestEntry)
    requires e.classification.ConfigClassification? && HasSuffix(prefix + e.name, SENTINEL)
    ensures !KeyPrecedes(prefix, e)
  {
    assert (prefix + SENTINEL)[|prefix|..] == SENTINEL;
  }

  lemma UnprefixedEntryOk(e: ManifestEntry)
    requires e.classification.ConfigClassification? && NameSyntax(e.name) && |SENTINEL| < |e.name| <= 128 && e.name[0] == 'A'
    requires '\r' !in e.value
    ensures EntryOk("", e)
  {
    Unprefixed(e.name);
    Unprefixed(SENTINEL);
    StartsElsewhere(e.name, "FORGEJO_");
    StartsElsewhere(e.name, "GITHUB_");
    StartsElsewhere(e.name, "GITEA_");
  }

  lemma LookalikeName()
    ensures NameSyntax(LOOKALIKE) && HasSuffix(LOOKALIKE, SENTINEL) && |SENTINEL| < |LOOKALIKE| <= 128 && LOOKALIKE[0] == 'A'
  {
    assert LOOKALIKE[2..] == SENTINEL;
  }

  lemma LookalikeIsValid()
    ensures ManifestOk("", LookalikeManifest()) && !KeyPrecedes("", LookalikeManifest()[0])
  {
    var e := LookalikeManifest()[0];
    LookalikeName();
    UnprefixedEntryOk(e);
    Unprefixed(e.name);
    VariableComesLate("", e);
  }

  /** A validated manifest whose teardown, stopped behind the secret sentinel, still holds its key. */
  lemma LookalikeEscapes() returns (first: Work, teardown: Work, n: nat)
    ensures ManifestOk("", LookalikeManifest()) && Escapes("", LookalikeManifest(), first, teardown, n)
  {
    LookalikeIsValid();
    first, teardown, n := UnorderedManifestEscapes("", LookalikeManifest(), LookalikeManifest()[0]);
  }
}
