/**
 The ownership ledger of one deployment target: which provider names are
 reserved, dispatched or owned, which names a manifest desires, and which rows
 are then left over.
 */
module Ledger {
  import opened Common
  import opened Sorting

  datatype Surface = Secret | Variable

  datatype Classification = SecretClassification | ConfigClassification | OtherClassification

  datatype LedgerState = Reserved | Dispatched | Owned

  datatype Key = Key(surface: Surface, name: string)

  datatype Entry = Entry(surface: Surface, name: string, state: LedgerState, missing: bool)

  datatype ManifestEntry = ManifestEntry(keyId: string, name: string, classification: Classification, value: string)

  datatype DesiredRow = DesiredRow(keyId: string, value: string, surface: Surface, name: string)

  datatype Disposition = Create | Update | Delete | Conflict | Unknown

  datatype Change = Change(surface: Surface, name: string, disposition: Disposition)

  datatype Outcome = Success | Failure | Indeterminate | Malformed

  datatype Completion = Completion(outcome: Outcome, state: Option<LedgerState>, releaseLedger: bool, missing: bool)

  const SENTINEL := "MANAGED_BY_HIKYO"

  // ---- Names -------------------------------------------------------------------

  function UpperChar(c: char): char {
    if 'a' <= c <= 'z' then (c as int - 32) as char else c
  }

  function Upper(s: string): string {
    seq(|s|, i requires 0 <= i < |s| => UpperChar(s[i]))
  }

  predicate HasPrefix(s: string, p: string) {
    |p| <= |s| && s[..|p|] == p
  }

  predicate HasSuffix(s: string, p: string) {
    |p| <= |s| && s[|s| - |p|..] == p
  }

  function NewKey(surface: Surface, name: string): Key {
    Key(surface, Upper(name))
  }

  function RowKey(row: DesiredRow): Key {
    NewKey(row.surface, row.name)
  }

  function EntryKey(e: Entry): Key {
    NewKey(e.surface, e.name)
  }

  // ---- Manifests ----------------------------------------------------------------

  predicate Lead(c: char) {
    'A' <= c <= 'Z' || c == '_'
  }

  predicate NameSyntax(s: string) {
    s != "" && Lead(s[0]) && forall i | 0 <= i < |s| :: Lead(s[i]) || '0' <= s[i] <= '9'
  }

  predicate EntryOk(prefix: string, e: ManifestEntry) {
    var name := prefix + e.name;
    && !e.classification.OtherClassification?
    && name != prefix + SENTINEL
    && |name| <= 128
    && NameSyntax(name)
    && !HasPrefix(name, "FORGEJO_") && !HasPrefix(name, "GITHUB_") && !HasPrefix(name, "GITEA_")
    && !(e.classification.ConfigClassification? && name == "CI")
    && '\r' !in e.value
  }

  ghost predicate ManifestOk(prefix: string, entries: seq<ManifestEntry>) {
    && (forall e | e in entries :: EntryOk(prefix, e))
    && (forall i, j | 0 <= i < j < |entries| :: Upper(prefix + entries[i].name) != Upper(prefix + entries[j].name))
  }

  method ValidateManifest(prefix: string, entries: seq<ManifestEntry>) returns (ok: bool)
    ensures ok <==> ManifestOk(prefix, entries)
  {
    var seen: set<string> := {};
    for i := 0 to |entries|
      invariant ManifestOk(prefix, entries[..i])
      invariant forall name :: name in seen <==> exists j | 0 <= j < i :: name == Upper(prefix + entries[j].name)
    {
      assert entries[..i + 1] == entries[..i] + [entries[i]];
      var normalized := Upper(prefix + entries[i].name);
      if !EntryOk(prefix, entries[i]) || normalized in seen {
        return false;
      }
      seen := seen + {normalized};
    }
    assert entries[..|entries|] == entries;
    return true;
  }

  /** No two elements share a key. */
  ghost predicate DistinctBy<T, K>(s: seq<T>, key: T -> K) {
    forall i, j | 0 <= i < j < |s| :: key(s[i]) != key(s[j])
  }

  lemma PermutationKeepsDistinct<T, K>(a: seq<T>, b: seq<T>, key: T -> K)
    requires multiset(a) == multiset(b) && DistinctBy(a, key)
    ensures DistinctBy(b, key)
  {
    forall i, j | 0 <= i < j < |b| ensures key(b[i]) != key(b[j]) {
      assert b[i] in multiset(a) && b[j] in multiset(a);
      if b[i] == b[j] {
        Repeated(b, i, j);
        var p, q := Twice(a, b[i]);
      }
    }
  }

  lemma Repeated<T>(s: seq<T>, i: nat, j: nat)
    requires i < j < |s| && s[i] == s[j]
    ensures multiset(s)[s[i]] >= 2
  {
    assert s == s[..j] + [s[j]] + s[j + 1..];
    assert s[i] in s[..j];
  }

  lemma {:induction false} Twice<T>(s: seq<T>, x: T) returns (p: nat, q: nat)
    requires multiset(s)[x] >= 2
    ensures p < q < |s| && s[p] == x && s[q] == x
  {
    assert s == s[..|s| - 1] + [s[|s| - 1]];
    if s[|s| - 1] == x {
      assert x in multiset(s[..|s| - 1]);
      p :| 0 <= p < |s| - 1 && s[p] == x;
      q := |s| - 1;
    } else {
      p, q := Twice(s[..|s| - 1], x);
    }
  }

  // ---- Rows ----------------------------------------------------------------------

  predicate StateOk(state: Option<LedgerState>, missing: bool) {
    missing ==> state == Some(Owned) || state == Some(Dispatched)
  }

  predicate ValidateCompletion(c: Completion) {
    && !c.outcome.Malformed?
    && c.releaseLedger == c.state.None?
    && StateOk(c.state, c.missing)
  }

  // The two completions of a sync: the name is ours now, or its row is gone.
  const OWNED := Completion(Success, Some(Owned), false, false)
  const RELEASED := Completion(Success, None, true, false)

  /** The index of `rows` in which the last row of each key wins. */
  ghost predicate LastWins(rows: seq<Entry>, index: map<Key, Entry>) {
    && (forall e | e in rows :: EntryKey(e) in index)
    && (forall k | k in index :: exists i | 0 <= i < |rows| ::
          rows[i] == index[k] && EntryKey(rows[i]) == k && forall j | i < j < |rows| :: EntryKey(rows[j]) != k)
  }

  /** One malformed row refuses the whole ledger. */
  method IndexLedger(rows: seq<Entry>) returns (r: Result<map<Key, Entry>, Entry>)
    ensures r.Err? <==> exists e | e in rows :: !StateOk(Some(e.state), e.missing)
    ensures r.Ok? ==> LastWins(rows, r.value)
  {
    var out: map<Key, Entry> := map[];
    for i := 0 to |rows|
      invariant forall e | e in rows[..i] :: StateOk(Some(e.state), e.missing) && EntryKey(e) in out
      invariant forall k | k in out :: exists p | 0 <= p < i ::
        rows[p] == out[k] && EntryKey(rows[p]) == k && forall j | p < j < i :: EntryKey(rows[j]) != k
    {
      if !StateOk(Some(rows[i].state), rows[i].missing) {
        return Err(rows[i]);
      }
      out := out[EntryKey(rows[i]) := rows[i]];
    }
    return Ok(out);
  }

  /** Every key names its own row. */
  ghost predicate WellKeyed(ledger: map<Key, Entry>) {
    forall k | k in ledger :: EntryKey(ledger[k]) == k && StateOk(Some(ledger[k].state), ledger[k].missing)
  }

  ghost predicate Enumerates(rows: seq<Entry>, ledger: map<Key, Entry>) {
    && (forall e | e in rows :: EntryKey(e) in ledger && ledger[EntryKey(e)] == e)
    && (forall k | k in ledger :: ledger[k] in rows)
  }

  /** Reading a valid ledger back, in any row order, gives that ledger. */
  lemma ValidLedgerReindexes(rows: seq<Entry>, ledger: map<Key, Entry>, index: map<Key, Entry>)
    requires WellKeyed(ledger) && Enumerates(rows, ledger) && LastWins(rows, index)
    ensures index == ledger && forall e | e in rows :: StateOk(Some(e.state), e.missing)
  {
    forall k | k in ledger ensures k in index { assert ledger[k] in rows; }
    forall k | k in index ensures k in ledger && index[k] == ledger[k] {
      var i :| 0 <= i < |rows| && rows[i] == index[k] && EntryKey(rows[i]) == k;
      assert rows[i] in rows;
    }
  }

  // ---- What a manifest desires ----------------------------------------------------

  function SurfaceOf(c: Classification): Surface {
    if c.ConfigClassification? then Variable else Secret
  }

  function SentinelRow(prefix: string, surface: Surface): DesiredRow {
    DesiredRow("", SENTINEL, surface, prefix + SENTINEL)
  }

  function ManifestRow(prefix: string, e: ManifestEntry): DesiredRow {
    DesiredRow(e.keyId, e.value, SurfaceOf(e.classification), prefix + e.name)
  }

  predicate NameLeq(s: Surface, a: string, t: Surface, b: string) {
    if s != t then s.Secret? else StringLeq(a, b)
  }

  predicate RowLeq(a: DesiredRow, b: DesiredRow) {
    if (a.keyId == "") != (b.keyId == "") then a.keyId == "" else NameLeq(a.surface, a.name, b.surface, b.name)
  }

  function ManifestRows(prefix: string, manifest: seq<ManifestEntry>): seq<DesiredRow> {
    seq(|manifest|, i requires 0 <= i < |manifest| => ManifestRow(prefix, manifest[i]))
  }

  function Unsorted(prefix: string, manifest: seq<ManifestEntry>, sentinels: bool): seq<DesiredRow> {
    (if sentinels then [SentinelRow(prefix, Secret), SentinelRow(prefix, Variable)] else []) + ManifestRows(prefix, manifest)
  }

  function Desired(prefix: string, manifest: seq<ManifestEntry>, sentinels: bool): (rows: seq<DesiredRow>)
    ensures multiset(rows) == multiset(Unsorted(prefix, manifest, sentinels))
  {
    Sort(Unsorted(prefix, manifest, sentinels), RowLeq)
  }

  method DesiredRows(prefix: string, manifest: seq<ManifestEntry>, sentinels: bool) returns (rows: seq<DesiredRow>)
    ensures rows == Desired(prefix, manifest, sentinels)
  {
    rows := if sentinels then [SentinelRow(prefix, Secret), SentinelRow(prefix, Variable)] else [];
    ghost var head := rows;
    for i := 0 to |manifest|
      invariant rows == head + ManifestRows(prefix, manifest[..i])
    {
      assert ManifestRows(prefix, manifest[..i + 1]) == ManifestRows(prefix, manifest[..i]) + [ManifestRow(prefix, manifest[i])];
      rows := rows + [ManifestRow(prefix, manifest[i])];
    }
    assert manifest[..|manifest|] == manifest;
    rows := Sort(rows, RowLeq);
  }

  lemma NameLeqIsPreorder(s: Surface, a: string, t: Surface, b: string, u: Surface, c: string)
    ensures NameLeq(s, a, t, b) || NameLeq(t, b, s, a)
    ensures NameLeq(s, a, t, b) && NameLeq(t, b, u, c) ==> NameLeq(s, a, u, c)
  {
    StringLeqTotal(a, b);
    if NameLeq(s, a, t, b) && NameLeq(t, b, u, c) && s == t == u { StringLeqTransitive(a, b, c); }
  }

  lemma RowLeqIsPreorder()
    ensures TotalPreorder(RowLeq)
  {
    forall a, b, c ensures (RowLeq(a, b) || RowLeq(b, a)) && (RowLeq(a, b) && RowLeq(b, c) ==> RowLeq(a, c)) {
      NameLeqIsPreorder(a.surface, a.name, b.surface, b.name, c.surface, c.name);
    }
  }

  ghost predicate DistinctKeys(rows: seq<DesiredRow>) {
    DistinctBy(rows, RowKey)
  }

  lemma UpperIsIdentity(s: string)
    requires forall i | 0 <= i < |s| :: Lead(s[i]) || '0' <= s[i] <= '9'
    ensures Upper(s) == s
  {}

  lemma ValidNameIsNormal(prefix: string, e: ManifestEntry)
    requires EntryOk(prefix, e)
    ensures Upper(prefix + e.name) == prefix + e.name && Upper(prefix + e.name) != Upper(prefix + SENTINEL)
  {
    UpperIsIdentity(prefix + e.name);
    var s := prefix + SENTINEL;
    forall i | 0 <= i < |s| ensures Lead(s[i]) || '0' <= s[i] <= '9' {
      if i < |prefix| { assert s[i] == (prefix + e.name)[i]; }
    }
    UpperIsIdentity(s);
  }

  lemma UnsortedKeysAreDistinct(prefix: string, manifest: seq<ManifestEntry>, sentinels: bool)
    requires ManifestOk(prefix, manifest)
    ensures DistinctKeys(Unsorted(prefix, manifest, sentinels))
  {
    var rows, s := Unsorted(prefix, manifest, sentinels), if sentinels then 2 else 0;
    forall j | s <= j < |rows| ensures rows[j] == ManifestRow(prefix, manifest[j - s]) && EntryOk(prefix, manifest[j - s]) {
      assert manifest[j - s] in manifest;
    }
    forall i, j | 0 <= i < j < |rows| ensures RowKey(rows[i]) != RowKey(rows[j]) {
      if j >= s { ValidNameIsNormal(prefix, manifest[j - s]); }
    }
  }

  /** Validated names are their own normal form, so a sync never claims one name twice. */
  lemma DesiredKeysAreDistinct(prefix: string, manifest: seq<ManifestEntry>, sentinels: bool)
    requires ManifestOk(prefix, manifest)
    ensures DistinctKeys(Desired(prefix, manifest, sentinels))
  {
    UnsortedKeysAreDistinct(prefix, manifest, sentinels);
    PermutationKeepsDistinct(Unsorted(prefix, manifest, sentinels), Desired(prefix, manifest, sentinels), RowKey);
  }

  lemma DesiredIsSentinelOrEntry(prefix: string, manifest: seq<ManifestEntry>, row: DesiredRow) returns (e: Option<ManifestEntry>)
    requires row in Desired(prefix, manifest, true)
    ensures e.None? ==> row == SentinelRow(prefix, Secret) || row == SentinelRow(prefix, Variable)
    ensures e.Some? ==> e.value in manifest && row == ManifestRow(prefix, e.value)
  {
    var unsorted := Unsorted(prefix, manifest, true);
    assert row in multiset(unsorted);
    var i :| 0 <= i < |unsorted| && unsorted[i] == row;
    e := if i < 2 then None else Some(manifest[i - 2]);
  }

  ghost predicate SentinelsFirst(prefix: string, rows: seq<DesiredRow>) {
    && |rows| >= 2 && rows[0] != rows[1]
    && (forall i | 0 <= i < 2 :: rows[i] == SentinelRow(prefix, Secret) || rows[i] == SentinelRow(prefix, Variable))
  }

  lemma KeylessRowsAreSentinels(prefix: string, manifest: seq<ManifestEntry>, row: DesiredRow)
    requires forall e | e in manifest :: e.keyId != ""
    requires row in Desired(prefix, manifest, true) && row.keyId == ""
    ensures row == SentinelRow(prefix, Secret) || row == SentinelRow(prefix, Variable)
  {
    var e := DesiredIsSentinelOrEntry(prefix, manifest, row);
  }

  lemma KeylessComeFirst(rows: seq<DesiredRow>, p: nat, q: nat, i: nat)
    requires SortedBy(rows, RowLeq) && p < |rows| && q < |rows| && p != q && rows[p].keyId == "" && rows[q].keyId == ""
    requires i < 2
    ensures i < |rows| && rows[i].keyId == ""
  {
    if i < p { assert RowLeq(rows[i], rows[p]); }
    if i < q { assert RowLeq(rows[i], rows[q]); }
  }

  lemma SentinelIndex(prefix: string, manifest: seq<ManifestEntry>, surface: Surface) returns (p: nat)
    ensures p < |Desired(prefix, manifest, true)| && Desired(prefix, manifest, true)[p] == SentinelRow(prefix, surface)
  {
    var unsorted, rows := Unsorted(prefix, manifest, true), Desired(prefix, manifest, true);
    assert SentinelRow(prefix, surface) == unsorted[if surface.Secret? then 0 else 1];
    assert SentinelRow(prefix, surface) in multiset(rows);
    p :| 0 <= p < |rows| && rows[p] == SentinelRow(prefix, surface);
  }

  /** With identified keys both management sentinels are written before any key. */
  lemma DesiredStartsWithSentinels(prefix: string, manifest: seq<ManifestEntry>)
    requires ManifestOk(prefix, manifest) && forall e | e in manifest :: e.keyId != ""
    ensures SentinelsFirst(prefix, Desired(prefix, manifest, true))
  {
    var rows := Desired(prefix, manifest, true);
    RowLeqIsPreorder();
    SortSorts(Unsorted(prefix, manifest, true), RowLeq);
    var p := SentinelIndex(prefix, manifest, Secret);
    var q := SentinelIndex(prefix, manifest, Variable);
    forall i: nat | i < 2 ensures i < |rows| && (rows[i] == SentinelRow(prefix, Secret) || rows[i] == SentinelRow(prefix, Variable)) {
      KeylessComeFirst(rows, p, q, i);
      KeylessRowsAreSentinels(prefix, manifest, rows[i]);
    }
    DesiredKeysAreDistinct(prefix, manifest, true);
    assert RowKey(rows[0]) != RowKey(rows[1]);
  }

  // ---- What is left over ------------------------------------------------------------

  predicate EntryLeq(a: Entry, b: Entry) {
    NameLeq(a.surface, a.name, b.surface, b.name)
  }

  predicate EntryLeqSentinelsLast(a: Entry, b: Entry) {
    if HasSuffix(a.name, SENTINEL) != HasSuffix(b.name, SENTINEL) then HasSuffix(b.name, SENTINEL) else EntryLeq(a, b)
  }

  lemma EntryLeqIsPreorder()
    ensures TotalPreorder(EntryLeq) && TotalPreorder(EntryLeqSentinelsLast)
  {
    forall a, b, c
      ensures (EntryLeq(a, b) || EntryLeq(b, a)) && (EntryLeq(a, b) && EntryLeq(b, c) ==> EntryLeq(a, c))
      ensures (EntryLeqSentinelsLast(a, b) || EntryLeqSentinelsLast(b, a))
      ensures (EntryLeqSentinelsLast(a, b) && EntryLeqSentinelsLast(b, c) ==> EntryLeqSentinelsLast(a, c))
    {
      NameLeqIsPreorder(a.surface, a.name, b.surface, b.name, c.surface, c.name);
    }
  }

  function Keys(rows: seq<DesiredRow>): set<Key> {
    set row | row in rows :: RowKey(row)
  }

  /** A list of exactly the rows kept by `reserved`, each once. */
  ghost predicate LeftOver(rows: seq<Entry>, desired: set<Key>, ledger: map<Key, Entry>, reserved: bool) {
    && (forall e | e in rows ::
          EntryKey(e) in ledger && EntryKey(e) !in desired && ledger[EntryKey(e)] == e && e.state.Reserved? == reserved)
    && (forall k | k in ledger && k !in desired && ledger[k].state.Reserved? == reserved :: ledger[k] in rows)
    && DistinctBy(rows, EntryKey)
  }

  lemma SortKeepsLeftOver(rows: seq<Entry>, leq: (Entry, Entry) -> bool, desired: set<Key>, ledger: map<Key, Entry>, reserved: bool)
    requires LeftOver(rows, desired, ledger, reserved)
    ensures LeftOver(Sort(rows, leq), desired, ledger, reserved)
  {
    var sorted := Sort(rows, leq);
    forall e ensures e in sorted <==> e in rows { assert e in multiset(sorted) <==> e in multiset(rows); }
    PermutationKeepsDistinct(rows, sorted, EntryKey);
  }

  lemma LeftOverGrows(rows: seq<Entry>, desired: set<Key>, ledger: map<Key, Entry>, left: set<Key>, k: Key, reserved: bool)
    requires WellKeyed(ledger) && left <= ledger.Keys && k in left && LeftOver(rows, desired, ledger - left, reserved)
    ensures LeftOver(if k !in desired && ledger[k].state.Reserved? == reserved then rows + [ledger[k]] else rows,
                     desired, ledger - (left - {k}), reserved)
  {
    assert forall e | e in rows :: EntryKey(e) != k;
  }

  /** The undesired rows of a ledger can be listed in any order of rows. */
  lemma LeftOverExists(desired: set<Key>, ledger: map<Key, Entry>, reserved: bool, leq: (Entry, Entry) -> bool) returns (rows: seq<Entry>)
    requires WellKeyed(ledger) && TotalPreorder(leq)
    ensures LeftOver(rows, desired, ledger, reserved) && SortedBy(rows, leq)
  {
    rows := [];
    var left := ledger.Keys;
    while left != {}
      invariant left <= ledger.Keys && LeftOver(rows, desired, ledger - left, reserved)
      decreases left
    {
      var k :| k in left;
      LeftOverGrows(rows, desired, ledger, left, k, reserved);
      rows := if k !in desired && ledger[k].state.Reserved? == reserved then rows + [ledger[k]] else rows;
      left := left - {k};
    }
    assert ledger - left == ledger;
    SortSorts(rows, leq);
    SortKeepsLeftOver(rows, leq, desired, ledger, reserved);
    rows := Sort(rows, leq);
  }

  /** Splits the undesired rows: bare reservations, and rows whose names must go, sentinels last. */
  method Undesired(desired: seq<DesiredRow>, ledger: map<Key, Entry>) returns (reservations: seq<Entry>, prunes: seq<Entry>)
    requires WellKeyed(ledger)
    ensures LeftOver(reservations, Keys(desired), ledger, true) && SortedBy(reservations, EntryLeq)
    ensures LeftOver(prunes, Keys(desired), ledger, false) && SortedBy(prunes, EntryLeqSentinelsLast)
  {
    var desiredSet := Keys(desired);
    reservations, prunes := [], [];
    var left := ledger.Keys;
    while left != {}
      invariant left <= ledger.Keys
      invariant LeftOver(reservations, desiredSet, ledger - left, true)
      invariant LeftOver(prunes, desiredSet, ledger - left, false)
      decreases left
    {
      var k :| k in left;
      LeftOverGrows(reservations, desiredSet, ledger, left, k, true);
      LeftOverGrows(prunes, desiredSet, ledger, left, k, false);
      if k in desiredSet {
      } else if ledger[k].state.Reserved? {
        reservations := reservations + [ledger[k]];
      } else {
        prunes := prunes + [ledger[k]];
      }
      left := left - {k};
    }
    assert ledger - left == ledger;
    EntryLeqIsPreorder();
    SortSorts(reservations, EntryLeq);
    SortKeepsLeftOver(reservations, EntryLeq, desiredSet, ledger, true);
    SortSorts(prunes, EntryLeqSentinelsLast);
    SortKeepsLeftOver(prunes, EntryLeqSentinelsLast, desiredSet, ledger, false);
    reservations := Sort(reservations, EntryLeq);
    prunes := Sort(prunes, EntryLeqSentinelsLast);
  }
}
