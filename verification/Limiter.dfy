/**
 The admission limiter of one node: bounded tracking tables, the verification
 slots derived from a memory budget, and the handoff of its counters.
 */
module Limiter {
  import opened Arithmetic
  import opened Common
  import opened SlidingWindow
  import opened SharedCounters

  const DEFAULT_BUDGET_MIB := 272
  const HEADROOM_MIB := 16
  const MAX_CONCURRENCY := 8
  const QUEUE_DEPTH := 16
  const PER_IP_PER_MINUTE := 10
  const META_PER_IP_PER_MINUTE := 60
  const ISSUER_REFRESH_PER_MINUTE := 5
  const MAX_TRACKED_SUBJECTS := 4096

  // ---- Making room in a full table -----------------------------------------------------------------

  /** What a sweep has kept when it has still to look at the keys in `left`. */
  function Kept<K, V>(m: map<K, V>, expired: V -> bool, left: set<K>): map<K, V> {
    map k | k in m && (k in left || !expired(m[k])) :: m[k]
  }

  lemma KeptStep<K, V>(m: map<K, V>, expired: V -> bool, left: set<K>, k: K)
    requires k in left && k in m
    ensures Kept(m, expired, left - {k}) == if expired(m[k]) then Kept(m, expired, left) - {k} else Kept(m, expired, left)
  {}

  lemma KeptEnds<K, V>(m: map<K, V>, expired: V -> bool)
    ensures Kept(m, expired, m.Keys) == m
    ensures (forall k | k in m :: !expired(m[k])) ==> Kept(m, expired, {}) == m
    ensures (exists k | k in m :: expired(m[k])) ==> |Kept(m, expired, {})| < |m|
  {
    if k :| k in m && expired(m[k]) {
      assert Kept(m, expired, {}).Keys <= m.Keys - {k};
      SubsetIsSmaller(Kept(m, expired, {}).Keys, m.Keys - {k});
    }
  }

  /** Dropping exactly what has expired, or else, from a full table, the oldest entry. */
  ghost predicate MadeRoom<K(!new), V>(m: map<K, V>, expired: V -> bool, age: V -> int, out: map<K, V>) {
    if exists k | k in m :: expired(m[k]) then out == Kept(m, expired, {})
    else if |m| < MAX_TRACKED_SUBJECTS then out == m
    else exists victim | victim in m :: out == m - {victim} && forall k | k in m :: age(m[victim]) <= age(m[k])
  }

  /** One sweep that drops expired entries and remembers the oldest live one until something was dropped. */
  method MakeRoom<K(!new, ==), V>(m: map<K, V>, expired: V -> bool, age: V -> int) returns (out: map<K, V>)
    requires |m| <= MAX_TRACKED_SUBJECTS
    ensures MadeRoom(m, expired, age, out) && |out| < MAX_TRACKED_SUBJECTS
  {
    KeptEnds(m, expired);
    out := m;
    var left, oldest, reclaimed := m.Keys, None, false;
    while left != {}
      invariant left <= m.Keys && out == Kept(m, expired, left)
      invariant reclaimed <==> exists k | k in m && k !in left :: expired(m[k])
      invariant !reclaimed ==> (oldest.None? <==> left == m.Keys)
      invariant !reclaimed && oldest.Some? ==> oldest.value in m && forall k | k in m && k !in left :: age(m[oldest.value]) <= age(m[k])
      decreases left
    {
      var k :| k in left;
      KeptStep(m, expired, left, k);
      left := left - {k};
      if expired(m[k]) {
        out := out - {k};
        reclaimed := true;
      } else if !reclaimed && (oldest.None? || age(m[k]) < age(m[oldest.value])) {
        oldest := Some(k);
      }
    }
    if |out| >= MAX_TRACKED_SUBJECTS && oldest.Some? {
      assert !reclaimed;
      out := out - {oldest.value};
      assert out.Keys == m.Keys - {oldest.value};
    }
  }

  lemma {:induction false} SubsetIsSmaller<K>(a: set<K>, b: set<K>)
    requires a <= b
    ensures |a| <= |b|
    decreases b
  {
    if b != {} {
      var x :| x in b;
      assert a - {x} <= b - {x};
      SubsetIsSmaller(a - {x}, b - {x});
    }
  }

  // ---- Windows of many subjects -----------------------------------------------------------------------

  type Windows = map<string, seq<int>>

  /** Every tracked window is named, non-empty and in clock order, and there are not too many. */
  ghost predicate WindowsOk(w: Windows, now: int) {
    && |w| <= MAX_TRACKED_SUBJECTS && "" !in w
    && forall k | k in w :: w[k] != [] && Sorted(w[k]) && forall i | 0 <= i < |w[k]| :: w[k][i] <= now
  }

  function HitsOf(w: Windows, subject: string): seq<int> {
    if subject in w then w[subject] else []
  }

  predicate Expired(hits: seq<int>, cutoff: int) {
    Live(hits, cutoff) == []
  }

  function Oldest(hits: seq<int>): int {
    if hits == [] then 0 else hits[0]
  }

  /**
   What making room may cost a subject over all its later attempts. When something
   had expired, nothing; otherwise it may be forgotten, and is then admitted at
   least as often and its n-th time no later, after any number of attempts.
   */
  lemma ForgettingOnlyForgives(w: Windows, out: Windows, cutoff: int, subject: string, attempts: seq<int>, allowance: nat)
    requires MadeRoom(w, (hits: seq<int>) => Expired(hits, cutoff), Oldest, out)
    requires Sorted(attempts) && forall i | 0 <= i < |attempts| :: attempts[i] - MINUTE >= cutoff
    ensures var kept, forgotten := AdmittedAfter(HitsOf(w, subject), attempts, allowance), AdmittedAfter(HitsOf(out, subject), attempts, allowance);
            && NoWorse(forgotten, kept)
            && ((exists k | k in w :: Expired(w[k], cutoff)) ==> forgotten == kept)
  {
    if subject in w && subject !in out {
      ForgettingAdmitsNoLess(w[subject], attempts, allowance);
      if Expired(w[subject], cutoff) { ExpiredHitsDecideNothing(w[subject], cutoff, attempts, allowance); }
    }
  }

  /** There is room for one more window, or one of those kept has expired. */
  predicate HasRoom(w: Windows, now: int) {
    |w| < MAX_TRACKED_SUBJECTS || exists k | k in w :: Expired(w[k], now - MINUTE)
  }

  /** A sweep takes no later admission from a subject exactly when it kept the subject's window or dropped an expired one. */
  lemma SweepForgivesSubject(w: Windows, out: Windows, now: int, subject: string, allowance: nat)
    requires WindowsOk(w, now) && allowance >= 1 && MadeRoom(w, (hits: seq<int>) => Expired(hits, now - MINUTE), Oldest, out)
    ensures Forgives(HitsOf(w, subject), HitsOf(out, subject), now, allowance) <==>
            (subject in w && subject !in out ==> Expired(w[subject], now - MINUTE))
  {
    if subject in w && subject !in out {
      ForgivesExactlyWhenExpired(w[subject], now, allowance);
    } else {
      assert HitsOf(out, subject) == HitsOf(w, subject);
    }
  }

  /** It takes no later admission from anybody exactly when it found room or something expired. */
  lemma SweepForgivesExactlyWhen(w: Windows, out: Windows, now: int, allowance: nat)
    requires WindowsOk(w, now) && allowance >= 1 && MadeRoom(w, (hits: seq<int>) => Expired(hits, now - MINUTE), Oldest, out)
    ensures (forall subject :: Forgives(HitsOf(w, subject), HitsOf(out, subject), now, allowance)) <==> HasRoom(w, now)
  {
    if HasRoom(w, now) {
      forall subject ensures Forgives(HitsOf(w, subject), HitsOf(out, subject), now, allowance) {
        SweepForgivesSubject(w, out, now, subject, allowance);
      }
    } else {
      var victim :| victim in w && out == w - {victim};
      SweepForgivesSubject(w, out, now, victim, allowance);
    }
  }

  /** Nothing was dropped, or only what making room drops. */
  ghost predicate RoomIn(w: Windows, room: Windows, now: int) {
    room == w || MadeRoom(w, (hits: seq<int>) => Expired(hits, now - MINUTE), Oldest, room)
  }

  /** Everyone else's window is as it was, or dropped to make room. */
  ghost predicate OthersKept(w: Windows, w': Windows, subject: string, now: int) {
    exists room: Windows | RoomIn(w, room, now) :: w' - {subject} == room - {subject}
  }

  lemma UpdateKeepsOk(w: Windows, room: Windows, subject: string, hits: seq<int>, now: int)
    requires WindowsOk(w, now) && RoomIn(w, room, now) && |room| <= MAX_TRACKED_SUBJECTS
    requires subject != "" && hits != [] && Sorted(hits) && forall i | 0 <= i < |hits| :: hits[i] <= now
    requires subject in room || |room| < MAX_TRACKED_SUBJECTS
    ensures WindowsOk(room[subject := hits], now) && OthersKept(w, room[subject := hits], subject, now)
  {
    SizeOfUpdate(room, subject, hits);
    assert room[subject := hits] - {subject} == room - {subject};
    assert forall k | k in room :: k in w && room[k] == w[k];
  }

  method Room(w: Windows, now: int, full: bool) returns (room: Windows)
    requires |w| <= MAX_TRACKED_SUBJECTS
    ensures RoomIn(w, room, now) && (full ==> |room| < MAX_TRACKED_SUBJECTS) && |room| <= MAX_TRACKED_SUBJECTS
    ensures !full ==> room == w
  {
    room := w;
    if full {
      room := MakeRoom(w, (hits: seq<int>) => Expired(hits, now - MINUTE), Oldest);
    }
  }

  lemma RefusalIsAttempt(w: Windows, subject: string, allowance: nat, now: int)
    requires WindowsOk(w, now) && subject != "" && 1 <= allowance <= |Live(HitsOf(w, subject), now - MINUTE)|
    ensures var live := Live(HitsOf(w, subject), now - MINUTE);
            && subject in w && WindowsOk(w[subject := live], now) && Wait(live, now, allowance) > 0
            && Attempted(w, w[subject := live], subject, allowance, now, Wait(live, now, allowance))
  {
    var hits := HitsOf(w, subject);
    var live := Live(hits, now - MINUTE);
    KeptIsOk(hits, now - MINUTE, now);
    WaitIsExact(hits, now, allowance, now);
    UpdateKeepsOk(w, w, subject, live, now);
    assert live + [] == live;
  }

  lemma AdmissionIsAttempt(w: Windows, room: Windows, subject: string, allowance: nat, now: int)
    requires WindowsOk(w, now) && subject != "" && |Live(HitsOf(w, subject), now - MINUTE)| < allowance
    requires RoomIn(w, room, now) && |room| <= MAX_TRACKED_SUBJECTS && (subject in room || |room| < MAX_TRACKED_SUBJECTS)
    ensures var hits := Live(HitsOf(w, subject), now - MINUTE) + [now];
            WindowsOk(room[subject := hits], now) && Attempted(w, room[subject := hits], subject, allowance, now, 0)
  {
    var hits := HitsOf(w, subject);
    KeptIsOk(hits, now - MINUTE, now);
    UpdateKeepsOk(w, room, subject, Live(hits, now - MINUTE) + [now], now);
  }

  method AllowIn(w: Windows, subject: string, allowance: nat, now: int) returns (w': Windows, wait: int)
    requires WindowsOk(w, now) && allowance >= 1
    ensures WindowsOk(w', now) && Attempted(w, w', subject, allowance, now, wait)
    ensures wait != 0 ==> subject in w && w' == w[subject := Live(w[subject], now - MINUTE)]
  {
    if subject == "" { return w, 0; }
    var hits := HitsOf(w, subject);
    var kept := Compact(hits, now - MINUTE);
    assert |kept| > 0 ==> subject in w;
    if |kept| >= allowance {
      RefusalIsAttempt(w, subject, allowance, now);
      return w[subject := kept], kept[|kept| - allowance] + MINUTE - now;
    }
    var room := Room(w, now, |kept| == 0 && |w| >= MAX_TRACKED_SUBJECTS);
    AdmissionIsAttempt(w, room, subject, allowance, now);
    return room[subject := kept + [now]], 0;
  }

  lemma KeptIsOk(hits: seq<int>, cutoff: int, now: int)
    requires Sorted(hits) && forall i | 0 <= i < |hits| :: hits[i] <= now
    ensures Sorted(Live(hits, cutoff)) && forall i | 0 <= i < |Live(hits, cutoff)| :: Live(hits, cutoff)[i] <= now
    ensures Sorted(Live(hits, cutoff) + [now])
  {
    var k := LiveIsSuffix(hits, cutoff);
  }

  lemma SizeOfUpdate<K, V>(m: map<K, V>, k: K, v: V)
    ensures |m[k := v]| == if k in m then |m| else |m| + 1
  {
    assert m[k := v].Keys == m.Keys + {k};
  }

  // ---- The memory budget ---------------------------------------------------------------------------------

  datatype Budget = Budget(budgetMiB: int, argonMiB: int, concurrency: nat)

  ghost predicate Fits(b: Budget) {
    1 <= b.concurrency <= MAX_CONCURRENCY && b.argonMiB >= 1 && b.concurrency * b.argonMiB + HEADROOM_MIB <= b.budgetMiB
  }

  /** The number of verifications that fit beside each other; a configuration that cannot hold one is refused. */
  function Derive(budgetMiB: int, argonKiB: nat): (r: Option<Budget>)
    ensures var total := if budgetMiB <= 0 then DEFAULT_BUDGET_MIB else budgetMiB;
            r.None? <==> argonKiB == 0 || total * 1024 < argonKiB + HEADROOM_MIB * 1024
    ensures r.Some? ==> Fits(r.value) && r.value.argonMiB * 1024 >= argonKiB
    ensures r.Some? && r.value.concurrency < MAX_CONCURRENCY ==>
              (r.value.concurrency + 1) * r.value.argonMiB + HEADROOM_MIB > r.value.budgetMiB
  {
    var total := if budgetMiB <= 0 then DEFAULT_BUDGET_MIB else budgetMiB;
    if argonKiB == 0 then None else
    var argonMiB := (argonKiB + 1023) / 1024;
    if total < argonMiB + HEADROOM_MIB then None else
    var n := (total - HEADROOM_MIB) / argonMiB;
    DividesInto(total - HEADROOM_MIB, argonMiB);
    Some(Budget(total, argonMiB, if n > MAX_CONCURRENCY then FewerFit(MAX_CONCURRENCY, n, argonMiB); MAX_CONCURRENCY else n))
  }

  lemma DividesInto(total: int, part: int)
    requires part >= 1 && total >= part
    ensures total / part >= 1 && total / part * part <= total < (total / part + 1) * part
  {}

  lemma FewerFit(a: int, b: int, part: int)
    requires a <= b && part >= 0
    ensures a * part <= b * part
  {}

  // ---- The limiter ----------------------------------------------------------------------------------------------

  datatype Session = Session(id: nat, seen: int)

  function Deadline(a: Account): int {
    if a.until.Some? then a.until.value else 0
  }

  /** Accounts without a live delay are forgotten first, then the one whose delay ends soonest. */
  ghost predicate AccountRoom(accounts: map<nat, Account>, room: map<nat, Account>, account: nat, now: int) {
    if account in accounts || |accounts| < MAX_TRACKED_SUBJECTS then room == accounts
    else MadeRoom(accounts, (a: Account) => !(a.until.Some? && a.until.value > now), Deadline, room)
  }

  ghost predicate SessionRoom(sessions: map<nat, Session>, room: map<nat, Session>, verifier: nat) {
    if verifier in sessions || |sessions| < MAX_TRACKED_SUBJECTS then room == sessions
    else MadeRoom(sessions, (s: Session) => false, (s: Session) => s.seen, room)
  }

  method CloneWindows(previous: Windows) returns (out: Windows)
    ensures out == previous
  {
    out := map[];
    var left := previous.Keys;
    while left != {}
      invariant left <= previous.Keys && out == previous - left
      decreases left
    {
      var k :| k in left;
      out := out[k := previous[k]];
      left := left - {k};
    }
    assert previous - left == previous;
  }

  /** Everything a limiter remembers about subjects. */
  datatype Counters = Counters(ipHits: Windows, metaHits: Windows, issuerRefreshes: Windows,
                               accounts: map<nat, Account>, sessions: map<nat, Session>)

  const NO_COUNTERS := Counters(map[], map[], map[], map[], map[])

  /** All five tables are within their bound and every window is in order. */
  ghost predicate CountersOk(c: Counters, now: int) {
    && WindowsOk(c.ipHits, now) && WindowsOk(c.metaHits, now) && WindowsOk(c.issuerRefreshes, now)
    && |c.accounts| <= MAX_TRACKED_SUBJECTS && |c.sessions| <= MAX_TRACKED_SUBJECTS
  }

  lemma LaterIsOk(c: Counters, now: int, later: int)
    requires CountersOk(c, now) && now <= later
    ensures CountersOk(c, later)
  {}

  /** Advances one account's backoff, making room for it first. */
  method CountFailure(accounts: map<nat, Account>, account: nat, now: int) returns (out: map<nat, Account>)
    requires |accounts| <= MAX_TRACKED_SUBJECTS
    ensures |out| <= MAX_TRACKED_SUBJECTS
    ensures exists room | AccountRoom(accounts, room, account, now) ::
              out == room[account := RecordFailure(AccountOf(accounts, account), now)]
  {
    var room := accounts;
    if account !in accounts && |accounts| >= MAX_TRACKED_SUBJECTS {
      room := MakeRoom(accounts, (a: Account) => !(a.until.Some? && a.until.value > now), Deadline);
    }
    assert AccountRoom(accounts, room, account, now);
    var next := RecordFailure(AccountOf(accounts, account), now);
    SizeOfUpdate(room, account, next);
    out := room[account := next];
  }

  method CountSession(sessions: map<nat, Session>, verifier: nat, id: nat, now: int) returns (out: map<nat, Session>)
    requires |sessions| <= MAX_TRACKED_SUBJECTS
    ensures |out| <= MAX_TRACKED_SUBJECTS
    ensures exists room | SessionRoom(sessions, room, verifier) :: out == room[verifier := Session(id, now)]
  {
    var room := sessions;
    if verifier !in sessions && |sessions| >= MAX_TRACKED_SUBJECTS {
      room := MakeRoom(sessions, (s: Session) => false, (s: Session) => s.seen);
    }
    assert SessionRoom(sessions, room, verifier);
    SizeOfUpdate(room, verifier, Session(id, now));
    out := room[verifier := Session(id, now)];
  }

  class Limiter {
    const budget: Budget
    const perIP: nat
    const discoveryPerIP: nat
    // Free slots, the callers that hold one, and the callers that wait for one.
    var free: nat
    var held: set<nat>
    var waiting: set<nat>
    var counters: Counters
    // The shared store, if any, and whether an operation is under way.
    var shared: Option<nat>
    var busy: bool
    // The latest instant the limiter has read from its clock.
    var time: int

    ghost predicate Valid()
      reads this
    {
      && Fits(budget) && perIP >= 1 && discoveryPerIP >= META_PER_IP_PER_MINUTE
      && free + |held| == budget.concurrency && |waiting| <= QUEUE_DEPTH && held !! waiting
      && CountersOk(counters, time)
    }

    constructor (budget: Budget, perIP: int, shared: Option<nat>, now: int)
      requires Fits(budget)
      ensures Valid() && this.budget == budget && free == budget.concurrency && counters == NO_COUNTERS && time == now
      ensures this.shared == shared && !busy
    {
      this.shared, busy := shared, false;
      this.budget, free, held, waiting, counters, time := budget, budget.concurrency, {}, {}, NO_COUNTERS, now;
      var own := if perIP <= 0 then PER_IP_PER_MINUTE else perIP;
      this.perIP := own;
      discoveryPerIP := if own > META_PER_IP_PER_MINUTE then own else META_PER_IP_PER_MINUTE;
    }

    /** Nobody holds or waits for a slot. */
    predicate Quiescent()
      reads this
    {
      waiting == {} && free == budget.concurrency
    }

    /** However callers come and go, what runs at once fits the budget with its headroom. */
    lemma VerificationsFitBudget()
      requires Valid()
      ensures |held| * budget.argonMiB + HEADROOM_MIB <= budget.budgetMiB
    {
      FewerFit(|held|, budget.concurrency, budget.argonMiB);
    }

    method AllowIP(ip: string, now: int) returns (wait: int)
      requires Valid() && now >= time
      modifies this`counters, this`time
      ensures Valid() && time == now && counters == old(counters).(ipHits := counters.ipHits)
      ensures Attempted(old(counters).ipHits, counters.ipHits, ip, perIP, now, wait)
    {
      LaterIsOk(counters, time, now);
      var hits;
      hits, wait := AllowIn(counters.ipHits, ip, perIP, now);
      counters, time := counters.(ipHits := hits), now;
    }

    method AllowDiscovery(ip: string, now: int) returns (wait: int)
      requires Valid() && now >= time
      modifies this`counters, this`time
      ensures Valid() && time == now && counters == old(counters).(metaHits := counters.metaHits)
      ensures Attempted(old(counters).metaHits, counters.metaHits, ip, discoveryPerIP, now, wait)
    {
      LaterIsOk(counters, time, now);
      var hits;
      hits, wait := AllowIn(counters.metaHits, ip, discoveryPerIP, now);
      counters, time := counters.(metaHits := hits), now;
    }

    method AllowIssuerRefresh(issuer: string, now: int) returns (wait: int)
      requires Valid() && now >= time
      modifies this`counters, this`time
      ensures Valid() && time == now && counters == old(counters).(issuerRefreshes := counters.issuerRefreshes)
      ensures Attempted(old(counters).issuerRefreshes, counters.issuerRefreshes, issuer, ISSUER_REFRESH_PER_MINUTE, now, wait)
    {
      LaterIsOk(counters, time, now);
      var hits;
      hits, wait := AllowIn(counters.issuerRefreshes, issuer, ISSUER_REFRESH_PER_MINUTE, now);
      counters, time := counters.(issuerRefreshes := hits), now;
    }

    method Enqueue(caller: nat) returns (ok: bool)
      requires Valid() && caller !in waiting && caller !in held
      modifies this`waiting
      ensures Valid() && ok == (|old(waiting)| < QUEUE_DEPTH)
      ensures waiting == if ok then old(waiting) + {caller} else old(waiting)
    {
      ok := |waiting| < QUEUE_DEPTH;
      if ok { waiting := waiting + {caller}; }
    }

    /** A waiting caller gets a slot if one is free. */
    method Acquire(caller: nat) returns (ok: bool)
      requires Valid() && caller in waiting
      modifies this`waiting, this`held, this`free
      ensures Valid() && ok == (old(free) > 0)
      ensures held == if ok then old(held) + {caller} else old(held)
      ensures waiting == if ok then old(waiting) - {caller} else old(waiting)
    {
      ok := free > 0;
      if ok { free, held, waiting := free - 1, held + {caller}, waiting - {caller}; }
    }

    method GiveUp(caller: nat)
      requires Valid() && caller in waiting
      modifies this`waiting
      ensures Valid() && waiting == old(waiting) - {caller}
    {
      waiting := waiting - {caller};
    }

    /** Returns a caller's slot; releasing again returns nothing. */
    method Release(caller: nat)
      requires Valid()
      modifies this`held, this`free
      ensures Valid() && held == old(held) - {caller}
      ensures free == old(free) + if caller in old(held) then 1 else 0
    {
      if caller in held { free, held := free + 1, held - {caller}; }
    }

    method NoteFailure(account: nat, now: int) returns (crossed: bool)
      requires Valid() && now >= time
      modifies this`counters, this`time
      ensures Valid() && time == now && counters == old(counters).(accounts := counters.accounts)
      ensures exists room | AccountRoom(old(counters).accounts, room, account, now) ::
                counters.accounts == room[account := RecordFailure(AccountOf(old(counters).accounts, account), now)]
      ensures crossed <==> AccountOf(old(counters).accounts, account).Some? &&
                           old(counters).accounts[account].failures == FAILURES_BEFORE_BACKOFF
    {
      LaterIsOk(counters, time, now);
      crossed := RecordFailure(AccountOf(counters.accounts, account), now).failures == FAILURES_BEFORE_BACKOFF + 1;
      var accounts := CountFailure(counters.accounts, account, now);
      counters, time := counters.(accounts := accounts), now;
    }

    method NoteSuccess(account: nat)
      requires Valid()
      modifies this`counters
      ensures Valid() && counters == old(counters).(accounts := old(counters).accounts - {account})
    {
      SubsetIsSmaller((counters.accounts - {account}).Keys, counters.accounts.Keys);
      counters := counters.(accounts := counters.accounts - {account});
    }

    method NoteLiveSession(verifier: nat, id: nat, now: int)
      requires Valid() && now >= time
      modifies this`counters, this`time
      ensures Valid() && time == now && counters == old(counters).(sessions := counters.sessions)
      ensures exists room | SessionRoom(old(counters).sessions, room, verifier) :: counters.sessions == room[verifier := Session(id, now)]
    {
      LaterIsOk(counters, time, now);
      var sessions := CountSession(counters.sessions, verifier, id, now);
      counters, time := counters.(sessions := sessions), now;
    }

    method ForgetSession(verifier: nat)
      requires Valid()
      modifies this`counters
      ensures Valid() && counters == old(counters).(sessions := old(counters).sessions - {verifier})
    {
      SubsetIsSmaller((counters.sessions - {verifier}).Keys, counters.sessions.Keys);
      counters := counters.(sessions := counters.sessions - {verifier});
    }

    /**
     An unused candidate takes over every counter of a quiet predecessor and its
     shared store, unless it was given another one; the predecessor is left as it is.
     */
    method InheritCounters(previous: Limiter) returns (refusal: Option<Refusal>)
      requires Valid() && previous.Valid()
      modifies this`counters, this`time, this`shared
      ensures Valid() && refusal == old(HandoffRefusal(previous))
      ensures refusal.None? ==> counters == old(previous.counters) && shared == old(previous.shared)
      ensures refusal.Some? ==> counters == old(counters) && shared == old(shared)
    {
      if previous == this { return Some(SameLimiter); }
      if previous.busy || busy { return Some(NotQuiescent); }
      if !Quiescent() || !previous.Quiescent() { return Some(NotQuiescent); }
      if counters != NO_COUNTERS { return Some(CountersNotEmpty); }
      if shared.Some? && shared != previous.shared { return Some(SharedBackendChanged); }
      var ipHits := CloneWindows(previous.counters.ipHits);
      var metaHits := CloneWindows(previous.counters.metaHits);
      var issuerRefreshes := CloneWindows(previous.counters.issuerRefreshes);
      var latest := if previous.time > time then previous.time else time;
      LaterIsOk(previous.counters, previous.time, latest);
      counters := Counters(ipHits, metaHits, issuerRefreshes, previous.counters.accounts, previous.counters.sessions);
      time, shared := latest, previous.shared;
      return None;
    }

    /** Why counters may not be handed over, the first reason first. */
    function HandoffRefusal(previous: Limiter): Option<Refusal>
      reads this, previous
    {
      if previous == this then Some(SameLimiter)
      else if previous.busy || busy || !Quiescent() || !previous.Quiescent() then Some(NotQuiescent)
      else if counters != NO_COUNTERS then Some(CountersNotEmpty)
      else if shared.Some? && shared != previous.shared then Some(SharedBackendChanged)
      else None
    }
  }

  datatype Refusal = SameLimiter | NotQuiescent | CountersNotEmpty | SharedBackendChanged

  /** What one attempt of a subject does to a table of windows. */
  ghost predicate Attempted(w: Windows, w': Windows, subject: string, allowance: nat, now: int, wait: int)
    requires allowance >= 1
  {
    if subject == "" then wait == 0 && w' == w else
    var live := Live(HitsOf(w, subject), now - MINUTE);
    && HitsOf(w', subject) == live + (if wait == 0 then [now] else [])
    && wait == (if |live| < allowance then 0 else Wait(live, now, allowance))
    && OthersKept(w, w', subject, now)
  }

  function AccountOf(accounts: map<nat, Account>, k: nat): Option<Account> {
    if k in accounts then Some(accounts[k]) else None
  }
}
