/**
 The sliding one-minute window of one subject: which attempts it admits, and
 how exact the wait of a refusal is. Times are nanoseconds.
 */
module SlidingWindow {
  import opened Arithmetic

  const MINUTE := 60 * SECOND

  ghost predicate Sorted(hits: seq<int>) {
    forall i, j | 0 <= i < j < |hits| :: hits[i] <= hits[j]
  }

  /** The hits after `cutoff`, in order. */
  function Live(hits: seq<int>, cutoff: int): seq<int> {
    if hits == [] then []
    else Live(hits[..|hits| - 1], cutoff) + (if hits[|hits| - 1] > cutoff then [hits[|hits| - 1]] else [])
  }

  lemma {:induction false} LiveIsRecent(hits: seq<int>, cutoff: int, i: nat)
    requires i < |Live(hits, cutoff)|
    ensures Live(hits, cutoff)[i] > cutoff
  {
    var front := Live(hits[..|hits| - 1], cutoff);
    if i < |front| { LiveIsRecent(hits[..|hits| - 1], cutoff, i); }
  }

  /** Dropping the expired hits, as the window does on every attempt. */
  method Compact(hits: seq<int>, cutoff: int) returns (kept: seq<int>)
    ensures kept == Live(hits, cutoff)
  {
    kept := [];
    for i := 0 to |hits|
      invariant kept == Live(hits[..i], cutoff)
    {
      assert hits[..i + 1][..i] == hits[..i];
      if hits[i] > cutoff {
        kept := kept + [hits[i]];
      }
    }
    assert hits[..|hits|] == hits;
  }

  lemma {:induction false} NothingLive(hits: seq<int>, cutoff: int)
    requires forall i | 0 <= i < |hits| :: hits[i] <= cutoff
    ensures Live(hits, cutoff) == []
  {
    if hits != [] { NothingLive(hits[..|hits| - 1], cutoff); }
  }

  /** Expired hits of a sorted window are exactly a first part of it. */
  lemma {:induction false} LiveIsSuffix(hits: seq<int>, cutoff: int) returns (k: nat)
    requires Sorted(hits)
    ensures k <= |hits| && Live(hits, cutoff) == hits[k..] && (forall i | 0 <= i < k :: hits[i] <= cutoff) && (forall i | k <= i < |hits| :: hits[i] > cutoff)
  {
    if hits == [] {
      k := 0;
    } else if hits[|hits| - 1] <= cutoff {
      NothingLive(hits, cutoff);
      k := |hits|;
    } else {
      var front := hits[..|hits| - 1];
      k := LiveIsSuffix(front, cutoff);
      SuffixGrows(hits, k);
      assert forall i | 0 <= i < |front| :: hits[i] == front[i];
    }
  }

  lemma SuffixGrows(hits: seq<int>, k: nat)
    requires k < |hits|
    ensures hits[..|hits| - 1][k..] + [hits[|hits| - 1]] == hits[k..]
  {}

  /** Compaction is lasting: what is live later is live now. */
  lemma {:induction false} LiveOfLive(hits: seq<int>, c: int, d: int)
    requires c <= d
    ensures Live(Live(hits, c), d) == Live(hits, d)
  {
    if hits != [] {
      LiveOfLive(hits[..|hits| - 1], c, d);
      var front, last := Live(hits[..|hits| - 1], c), hits[|hits| - 1];
      if last > c {
        assert (front + [last])[..|front|] == front;
      } else {
        assert Live(hits, c) == front;
      }
    }
  }

  lemma {:induction false} LiveShrinks(hits: seq<int>, c: int, d: int)
    requires c <= d
    ensures |Live(hits, d)| <= |Live(hits, c)|
  {
    if hits != [] { LiveShrinks(hits[..|hits| - 1], c, d); }
  }

  // ---- The wait of a refusal ---------------------------------------------------------------------

  lemma LiveAtLeast(hits: seq<int>, cutoff: int, n: nat)
    requires Sorted(hits) && 1 <= n <= |hits|
    ensures |Live(hits, cutoff)| >= n <==> hits[|hits| - n] > cutoff
  {
    var k := LiveIsSuffix(hits, cutoff);
  }

  /** How long a refused subject with these live hits has to wait. */
  function Wait(live: seq<int>, now: int, allowance: nat): int
    requires 1 <= allowance <= |live|
  {
    live[|live| - allowance] + MINUTE - now
  }

  predicate Admits(hits: seq<int>, now: int, allowance: nat) {
    |Live(hits, now - MINUTE)| < allowance
  }

  lemma WaitOfLive(live: seq<int>, now: int, allowance: nat, t: int)
    requires Sorted(live) && 1 <= allowance <= |live| && live[|live| - allowance] <= now && live[|live| - allowance] > now - MINUTE
    ensures var wait := Wait(live, now, allowance);
            0 < wait <= MINUTE && (|Live(live, t - MINUTE)| < allowance <==> t >= now + wait)
  {
    LiveAtLeast(live, t - MINUTE, allowance);
  }

  /** Without further hits every attempt before the wait is over is refused and every later one admitted, even for more hits than the allowance. */
  lemma WaitIsExact(hits: seq<int>, now: int, allowance: nat, t: int)
    requires Sorted(hits) && (forall i | 0 <= i < |hits| :: hits[i] <= now) && allowance >= 1 && !Admits(hits, now, allowance) && now <= t
    ensures var wait := Wait(Live(hits, now - MINUTE), now, allowance);
            0 < wait <= MINUTE && (Admits(hits, t, allowance) <==> t >= now + wait)
  {
    var live := Live(hits, now - MINUTE);
    var k := LiveIsSuffix(hits, now - MINUTE);
    assert live[|live| - allowance] == hits[|hits| - allowance];
    WaitOfLive(live, now, allowance, t);
    LiveOfLive(hits, now - MINUTE, t - MINUTE);
  }

  /** The seconds of the Retry-After header (section 10.2.3 of RFC 9110). */
  function RetryAfterSeconds(wait: int): int {
    var ceiling := (wait + SECOND - 1) / SECOND;
    if ceiling < 1 then 1 else ceiling
  }

  /** The header names the first whole second at which the refused subject is admitted again. */
  lemma HeaderNamesFirstAdmittedSecond(hits: seq<int>, now: int, allowance: nat)
    requires Sorted(hits) && (forall i | 0 <= i < |hits| :: hits[i] <= now) && allowance >= 1 && !Admits(hits, now, allowance)
    ensures var seconds := RetryAfterSeconds(Wait(Live(hits, now - MINUTE), now, allowance));
            && 1 <= seconds <= 60
            && Admits(hits, now + seconds * SECOND, allowance)
            && !Admits(hits, now + (seconds - 1) * SECOND, allowance)
  {
    var wait := Wait(Live(hits, now - MINUTE), now, allowance);
    WaitIsExact(hits, now, allowance, now);
    var seconds := RetryAfterSeconds(wait);
    assert (seconds - 1) * SECOND < wait <= seconds * SECOND;
    WaitIsExact(hits, now, allowance, now + seconds * SECOND);
    WaitIsExact(hits, now, allowance, now + (seconds - 1) * SECOND);
  }

  // ---- Whole histories ---------------------------------------------------------------------------------

  /** The hits charged over a history of attempts, on top of inherited ones. */
  function Charged(past: seq<int>, attempts: seq<int>, allowance: nat): seq<int> {
    if attempts == [] then past else
    var before, t := Charged(past, attempts[..|attempts| - 1], allowance), attempts[|attempts| - 1];
    if Admits(before, t, allowance) then before + [t] else before
  }

  /** What the window itself keeps: the charged hits with expired ones compacted away at each attempt. */
  function Window(past: seq<int>, attempts: seq<int>, allowance: nat): seq<int> {
    if attempts == [] then past
    else NextWindow(Window(past, attempts[..|attempts| - 1], allowance), attempts[|attempts| - 1], allowance)
  }

  /** A window after one more attempt. */
  function NextWindow(hits: seq<int>, now: int, allowance: nat): seq<int> {
    var live := Live(hits, now - MINUTE);
    if |live| < allowance then live + [now] else live
  }

  lemma {:induction false} LiveAppend(hits: seq<int>, t: int, cutoff: int)
    ensures Live(hits + [t], cutoff) == Live(hits, cutoff) + if t > cutoff then [t] else []
  {
    assert (hits + [t])[..|hits|] == hits;
  }

  /** Compaction never changes what counts: at every later cutoff the window shows the charged hits. */
  lemma {:induction false} WindowShowsCharged(past: seq<int>, attempts: seq<int>, allowance: nat, cutoff: int)
    requires Sorted(attempts) && (attempts != [] ==> cutoff >= attempts[|attempts| - 1] - MINUTE)
    ensures Live(Window(past, attempts, allowance), cutoff) == Live(Charged(past, attempts, allowance), cutoff)
  {
    if attempts != [] {
      var front, t := attempts[..|attempts| - 1], attempts[|attempts| - 1];
      assert front != [] ==> front[|front| - 1] <= t;
      WindowShowsCharged(past, front, allowance, t - MINUTE);
      WindowShowsCharged(past, front, allowance, cutoff);
      var window, charged := Window(past, front, allowance), Charged(past, front, allowance);
      LiveOfLive(window, t - MINUTE, cutoff);
      LiveAppend(Live(window, t - MINUTE), t, cutoff);
      LiveAppend(charged, t, cutoff);
    }
  }

  /** The hits in the half-open minute behind `lo`. */
  function InMinute(hits: seq<int>, lo: int): nat {
    if hits == [] then 0
    else InMinute(hits[..|hits| - 1], lo) + (if lo < hits[|hits| - 1] <= lo + MINUTE then 1 else 0)
  }

  lemma {:induction false} InMinuteIsLive(hits: seq<int>, lo: int)
    ensures InMinute(hits, lo) <= |Live(hits, lo)|
  {
    if hits != [] { InMinuteIsLive(hits[..|hits| - 1], lo); }
  }

  /** No minute holds more charged hits than the allowance, unless all its hits were inherited. */
  lemma {:induction false} AtMostAllowancePerMinute(past: seq<int>, attempts: seq<int>, allowance: nat, lo: int)
    requires Sorted(attempts)
    ensures var charged := Charged(past, attempts, allowance);
            InMinute(charged, lo) <= allowance || InMinute(charged, lo) == InMinute(past, lo)
  {
    if attempts != [] {
      var front, t := attempts[..|attempts| - 1], attempts[|attempts| - 1];
      AtMostAllowancePerMinute(past, front, allowance, lo);
      var before := Charged(past, front, allowance);
      if Admits(before, t, allowance) && lo < t <= lo + MINUTE {
        assert (before + [t])[..|before|] == before;
        InMinuteIsLive(before, lo);
        LiveShrinks(before, t - MINUTE, lo);
      } else if Admits(before, t, allowance) {
        assert (before + [t])[..|before|] == before;
      }
    }
  }

  // ---- Forgotten windows ---------------------------------------------------------------------------------

  /** The attempts admitted on top of some earlier hits. */
  function AdmittedAfter(past: seq<int>, attempts: seq<int>, allowance: nat): seq<int> {
    if attempts == [] then [] else
    var before, t := AdmittedAfter(past, attempts[..|attempts| - 1], allowance), attempts[|attempts| - 1];
    if Admits(past + before, t, allowance) then before + [t] else before
  }

  lemma {:induction false} ChargedIsAdmitted(past: seq<int>, attempts: seq<int>, allowance: nat)
    ensures Charged(past, attempts, allowance) == past + AdmittedAfter(past, attempts, allowance)
  {
    if attempts == [] {
      assert past + [] == past;
    } else {
      var front := attempts[..|attempts| - 1];
      ChargedIsAdmitted(past, front, allowance);
      var before, t := AdmittedAfter(past, front, allowance), attempts[|attempts| - 1];
      assert past + before + [t] == past + (before + [t]);
    }
  }

  lemma {:induction false} LiveConcat(a: seq<int>, b: seq<int>, cutoff: int)
    ensures Live(a + b, cutoff) == Live(a, cutoff) + Live(b, cutoff)
  {
    if b == [] {
      assert a + b == a;
    } else {
      var front, last := b[..|b| - 1], b[|b| - 1];
      LiveConcat(a, front, cutoff);
      assert (a + b)[..|a + b| - 1] == a + front && (a + b)[|a + b| - 1] == last;
    }
  }

  lemma AdmitsWithoutExpired(past: seq<int>, cutoff: int, before: seq<int>, t: int, allowance: nat)
    requires Live(past, cutoff) == [] && t - MINUTE >= cutoff
    ensures Admits(past + before, t, allowance) == Admits([] + before, t, allowance)
  {
    LiveConcat(past, before, t - MINUTE);
    LiveConcat([], before, t - MINUTE);
    LiveOfLive(past, cutoff, t - MINUTE);
  }

  /** Dropping hits that have all expired changes the outcome of no later attempt. */
  lemma {:induction false} ExpiredHitsDecideNothing(past: seq<int>, cutoff: int, attempts: seq<int>, allowance: nat)
    requires Live(past, cutoff) == [] && forall i | 0 <= i < |attempts| :: attempts[i] - MINUTE >= cutoff
    ensures AdmittedAfter(past, attempts, allowance) == AdmittedAfter([], attempts, allowance)
  {
    if attempts != [] {
      var front, t := attempts[..|attempts| - 1], attempts[|attempts| - 1];
      ExpiredHitsDecideNothing(past, cutoff, front, allowance);
      AdmitsWithoutExpired(past, cutoff, AdmittedAfter(past, front, allowance), t, allowance);
    }
  }

  lemma AdmittedExtends(past: seq<int>, attempts: seq<int>, allowance: nat)
    requires attempts != []
    ensures var n := |attempts| - 1;
            var before := AdmittedAfter(past, attempts[..n], allowance);
            AdmittedAfter(past, attempts, allowance) == before || AdmittedAfter(past, attempts, allowance) == before + [attempts[n]]
  {}

  lemma SortedAppend(s: seq<int>, t: seq<int>, x: int)
    requires Sorted(s) && (forall i | 0 <= i < |s| :: s[i] <= x) && (t == s || t == s + [x])
    ensures Sorted(t) && forall i | 0 <= i < |t| :: t[i] <= x
  {}

  lemma {:induction false} AdmittedInOrder(past: seq<int>, attempts: seq<int>, allowance: nat)
    requires Sorted(attempts)
    ensures Sorted(AdmittedAfter(past, attempts, allowance))
    ensures forall i | 0 <= i < |AdmittedAfter(past, attempts, allowance)| :: AdmittedAfter(past, attempts, allowance)[i] <= attempts[|attempts| - 1]
  {
    if attempts != [] {
      var front, last := attempts[..|attempts| - 1], attempts[|attempts| - 1];
      AdmittedInOrder(past, front, allowance);
      assert front != [] ==> front[|front| - 1] <= last;
      AdmittedExtends(past, attempts, allowance);
      SortedAppend(AdmittedAfter(past, front, allowance), AdmittedAfter(past, attempts, allowance), last);
    }
  }

  /** At least as many admissions, each at least as early. */
  ghost predicate NoWorse(y: seq<int>, x: seq<int>) {
    |x| <= |y| && forall i | 0 <= i < |x| :: y[i] <= x[i]
  }

  /** Whoever is ahead, or level with no later hits, is admitted when the other is. */
  lemma LevelAdmitsToo(past: seq<int>, x: seq<int>, y: seq<int>, t: int, allowance: nat)
    requires Sorted(x) && Sorted(y) && |x| == |y| && NoWorse(y, x) && Admits(past + x, t, allowance)
    ensures Admits([] + y, t, allowance)
  {
    LiveConcat(past, x, t - MINUTE);
    LiveConcat([], y, t - MINUTE);
    if 1 <= allowance <= |y| {
      LiveAtLeast(x, t - MINUTE, allowance);
      LiveAtLeast(y, t - MINUTE, allowance);
    } else {
      LiveIsShorter(y, t - MINUTE);
    }
  }

  lemma {:induction false} LiveIsShorter(hits: seq<int>, cutoff: int)
    ensures |Live(hits, cutoff)| <= |hits|
  {
    if hits != [] { LiveIsShorter(hits[..|hits| - 1], cutoff); }
  }

  /** Forgetting earlier hits never leaves fewer admissions so far, nor a later n-th one, after any number of attempts. */
  lemma {:induction false} ForgettingAdmitsNoLess(past: seq<int>, attempts: seq<int>, allowance: nat)
    requires Sorted(attempts)
    ensures NoWorse(AdmittedAfter([], attempts, allowance), AdmittedAfter(past, attempts, allowance))
  {
    if attempts != [] {
      var front, t := attempts[..|attempts| - 1], attempts[|attempts| - 1];
      ForgettingAdmitsNoLess(past, front, allowance);
      var x, y := AdmittedAfter(past, front, allowance), AdmittedAfter([], front, allowance);
      AdmittedInOrder(past, front, allowance);
      AdmittedInOrder([], front, allowance);
      if |x| == |y| && Admits(past + x, t, allowance) {
        LevelAdmitsToo(past, x, y, t, allowance);
      }
      assert front != [] ==> front[|front| - 1] <= t;
      NoWorseGrows(y, x, t, Admits([] + y, t, allowance), Admits(past + x, t, allowance));
    }
  }

  lemma NoWorseGrows(y: seq<int>, x: seq<int>, t: int, ahead: bool, behind: bool)
    requires NoWorse(y, x) && (forall i | 0 <= i < |y| :: y[i] <= t) && (|x| == |y| && behind ==> ahead)
    ensures NoWorse(if ahead then y + [t] else y, if behind then x + [t] else x)
  {}

  /** The attempts come in clock order and none before `now`. */
  ghost predicate LaterAttempts(attempts: seq<int>, t: int, now: int) {
    Sorted(attempts + [t]) && forall i | 0 <= i < |attempts + [t]| :: (attempts + [t])[i] >= now
  }

  /** Whenever a window with `past` admits an attempt after `now`, so does one with `kept` that saw the same attempts. */
  ghost predicate Forgives(past: seq<int>, kept: seq<int>, now: int, allowance: nat) {
    forall attempts, t | LaterAttempts(attempts, t, now) && Admits(past + AdmittedAfter(past, attempts, allowance), t, allowance) ::
      Admits(kept + AdmittedAfter(kept, attempts, allowance), t, allowance)
  }

  lemma ExpiredIsForgiven(past: seq<int>, now: int, allowance: nat)
    requires Live(past, now - MINUTE) == []
    ensures Forgives(past, [], now, allowance)
  {
    forall attempts, t | LaterAttempts(attempts, t, now) && Admits(past + AdmittedAfter(past, attempts, allowance), t, allowance)
      ensures Admits([] + AdmittedAfter([], attempts, allowance), t, allowance)
    {
      assert (attempts + [t])[|attempts|] == t && forall i | 0 <= i < |attempts| :: (attempts + [t])[i] == attempts[i];
      ExpiredHitsDecideNothing(past, now - MINUTE, attempts, allowance);
      AdmitsWithoutExpired(past, now - MINUTE, AdmittedAfter(past, attempts, allowance), t, allowance);
    }
  }

  /** Many attempts at one instant. */
  function Burst(t: int, n: nat): seq<int> {
    seq(n, _ => t)
  }

  ghost predicate AllAt(hits: seq<int>, t: int) {
    forall i | 0 <= i < |hits| :: hits[i] == t
  }

  lemma {:induction false} AllLive(hits: seq<int>, t: int, cutoff: int)
    requires AllAt(hits, t) && t > cutoff
    ensures |Live(hits, cutoff)| == |hits|
  {
    if hits != [] { AllLive(hits[..|hits| - 1], t, cutoff); }
  }

  lemma {:induction false} AdmittedAt(past: seq<int>, t: int, n: nat, allowance: nat)
    ensures AllAt(AdmittedAfter(past, Burst(t, n), allowance), t)
  {
    if n > 0 {
      assert Burst(t, n)[..n - 1] == Burst(t, n - 1);
      AdmittedAt(past, t, n - 1, allowance);
    }
  }

  /** What counts against the next attempt of a burst: the hits before it, and what it was let in for so far. */
  lemma BurstCounts(past: seq<int>, t: int, n: nat, allowance: nat, cutoff: int)
    requires cutoff < t
    ensures var before := AdmittedAfter(past, Burst(t, n), allowance);
            |Live(past + before, cutoff)| == |Live(past, cutoff)| + |before|
  {
    var before := AdmittedAfter(past, Burst(t, n), allowance);
    AdmittedAt(past, t, n, allowance);
    AllLive(before, t, cutoff);
    LiveConcat(past, before, cutoff);
  }

  /** A burst fills what the live hits leave free, and no more. */
  lemma {:induction false} BurstFills(past: seq<int>, t: int, n: nat, allowance: nat)
    requires n <= allowance
    ensures var live := |Live(past, t - MINUTE)|;
            |AdmittedAfter(past, Burst(t, n), allowance)| == if live >= allowance then 0 else if n <= allowance - live then n else allowance - live
  {
    if n > 0 {
      assert Burst(t, n)[..n - 1] == Burst(t, n - 1);
      BurstFills(past, t, n - 1, allowance);
      BurstCounts(past, t, n - 1, allowance, t - MINUTE);
    }
  }

  /** The hit whose expiry readmits a subject that fills its window in a burst at `t`; it is still live then, and fewer are live after it. */
  lemma Pivot(past: seq<int>, now: int, allowance: nat) returns (q: int, t: int, m: nat)
    requires Sorted(past) && (forall i | 0 <= i < |past| :: past[i] <= now) && allowance >= 1 && Live(past, now - MINUTE) != []
    ensures 1 <= m <= allowance && q < t && now <= t <= q + MINUTE
    ensures |Live(past, q)| < m <= |Live(past, t - MINUTE)|
  {
    var live := Live(past, now - MINUTE);
    var k := LiveIsSuffix(past, now - MINUTE);
    m := if |live| <= allowance then |live| else allowance;
    q := past[|past| - m];
    t := if q < now then now else now + 1;
    LiveAtLeast(past, q, m);
    LiveAtLeast(past, t - MINUTE, m);
  }

  lemma BurstIsLater(t: int, n: nat, last: int, now: int)
    requires now <= t <= last
    ensures LaterAttempts(Burst(t, n), last, now)
  {}

  /** Once the pivot has expired, the remembered window has room again. */
  lemma BurstLeavesRoom(past: seq<int>, t: int, q: int, m: nat, allowance: nat)
    requires 1 <= m <= allowance && q < t && |Live(past, q)| < m <= |Live(past, t - MINUTE)|
    ensures Admits(past + AdmittedAfter(past, Burst(t, allowance), allowance), q + MINUTE, allowance)
  {
    BurstFills(past, t, allowance, allowance);
    BurstCounts(past, t, allowance, allowance, q);
  }

  /** The forgotten one is still full. */
  lemma BurstLeavesNone(t: int, q: int, allowance: nat)
    requires q < t
    ensures !Admits([] + AdmittedAfter([], Burst(t, allowance), allowance), q + MINUTE, allowance)
  {
    BurstFills([], t, allowance, allowance);
    BurstCounts([], t, allowance, allowance, q);
  }

  /** A live window is not forgiven: some burst and one later attempt tell the difference. */
  lemma LiveIsNotForgiven(past: seq<int>, now: int, allowance: nat)
    requires Sorted(past) && (forall i | 0 <= i < |past| :: past[i] <= now) && allowance >= 1 && Live(past, now - MINUTE) != []
    ensures !Forgives(past, [], now, allowance)
  {
    var q, t, m := Pivot(past, now, allowance);
    BurstIsLater(t, allowance, q + MINUTE, now);
    BurstLeavesRoom(past, t, q, m, allowance);
    BurstLeavesNone(t, q, allowance);
  }

  /** Forgetting a window never turns an admission into a refusal exactly when the window has expired. */
  lemma ForgivesExactlyWhenExpired(past: seq<int>, now: int, allowance: nat)
    requires Sorted(past) && (forall i | 0 <= i < |past| :: past[i] <= now) && allowance >= 1
    ensures Forgives(past, [], now, allowance) <==> Live(past, now - MINUTE) == []
  {
    if Live(past, now - MINUTE) == [] {
      ExpiredIsForgiven(past, now, allowance);
    } else {
      LiveIsNotForgiven(past, now, allowance);
    }
  }

  /** For one input: one hit at 0 s, allowance 1, attempts at 30 s and 61 s. */
  lemma ForgettingCanRefuseLater()
    ensures AdmittedAfter([0], [30 * SECOND, 61 * SECOND], 1) == [61 * SECOND]
    ensures AdmittedAfter([], [30 * SECOND, 61 * SECOND], 1) == [30 * SECOND]
  {
    var attempts := [30 * SECOND, 61 * SECOND];
    assert attempts[..1] == [30 * SECOND] && attempts[..1][..0] == [];
    assert [0] + [] == [0] && [] + [30 * SECOND] == [30 * SECOND];
    assert Live([0], -30 * SECOND) == [0] && Live([], -30 * SECOND) == [];
    assert Live([0], SECOND) == [] && Live([30 * SECOND], SECOND) == [30 * SECOND];
    assert AdmittedAfter([0], attempts[..1], 1) == [];
    assert AdmittedAfter([], attempts[..1], 1) == [30 * SECOND];
  }
}
