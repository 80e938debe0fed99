/**
 Whole histories of one table of windows: attempts of any subjects, in any
 order, with the sweeps they cause. A subject that is not forgotten while its
 window is live is treated as if it had the table to itself; one that is
 forgotten is never worse off in number.
 */
module LimiterHistory {
  import opened SlidingWindow
  import opened Limiter

  datatype Visit = Visit(subject: string, now: int, wait: int)

  /** Table after table, each the outcome of one attempt, in clock order. */
  ghost predicate History(tables: seq<Windows>, visits: seq<Visit>, allowance: nat)
    requires allowance >= 1
  {
    && |tables| == |visits| + 1
    && (forall i {:trigger visits[i]} | 0 <= i < |visits| :: Attempted(tables[i], tables[i + 1], visits[i].subject, allowance, visits[i].now, visits[i].wait))
    && (forall i, j | 0 <= i < j < |visits| :: visits[i].now <= visits[j].now)
  }

  /** No sweep of somebody else's attempt forgets the subject's window while it is live. */
  ghost predicate Spared(tables: seq<Windows>, visits: seq<Visit>, subject: string)
    requires |tables| == |visits| + 1
  {
    forall i {:trigger visits[i]} | 0 <= i < |visits| && visits[i].subject != subject && subject in tables[i] && subject !in tables[i + 1] ::
      Expired(tables[i][subject], visits[i].now - MINUTE)
  }

  /** When the subject came. */
  function Attempts(visits: seq<Visit>, subject: string): seq<int> {
    if visits == [] then []
    else Attempts(visits[..|visits| - 1], subject) +
         (if visits[|visits| - 1].subject == subject then [visits[|visits| - 1].now] else [])
  }

  /** When it was let in. */
  function Admissions(visits: seq<Visit>, subject: string): seq<int> {
    if visits == [] then []
    else Admissions(visits[..|visits| - 1], subject) +
         (if visits[|visits| - 1].subject == subject && visits[|visits| - 1].wait == 0 then [visits[|visits| - 1].now] else [])
  }

  /** From `cutoff` on a window counts what was charged. */
  ghost predicate Shows(hits: seq<int>, charged: seq<int>, cutoff: int) {
    forall c | c >= cutoff :: Live(hits, c) == Live(charged, c)
  }

  lemma OwnVisit(w: Windows, w': Windows, subject: string, allowance: nat, now: int, wait: int, charged: seq<int>)
    requires allowance >= 1 && subject != "" && Attempted(w, w', subject, allowance, now, wait)
    requires Shows(HitsOf(w, subject), charged, now - MINUTE)
    ensures wait == 0 <==> Admits(charged, now, allowance)
    ensures Shows(HitsOf(w', subject), if wait == 0 then charged + [now] else charged, now - MINUTE)
  {
    var hits := HitsOf(w, subject);
    var live := Live(hits, now - MINUTE);
    if allowance <= |live| { LiveIsRecent(hits, now - MINUTE, |live| - allowance); }
    assert live == Live(charged, now - MINUTE);
    forall c | c >= now - MINUTE ensures Live(HitsOf(w', subject), c) == Live(if wait == 0 then charged + [now] else charged, c) {
      LiveOfLive(hits, now - MINUTE, c);
      if wait == 0 {
        LiveAppend(live, now, c);
        LiveAppend(charged, now, c);
      } else {
        assert live + [] == live;
      }
    }
  }

  lemma OtherVisit(w: Windows, w': Windows, other: string, allowance: nat, now: int, wait: int, subject: string, charged: seq<int>)
    requires allowance >= 1 && subject != other && Attempted(w, w', other, allowance, now, wait)
    requires subject in w && subject !in w' ==> Expired(w[subject], now - MINUTE)
    requires Shows(HitsOf(w, subject), charged, now - MINUTE)
    ensures Shows(HitsOf(w', subject), charged, now - MINUTE)
  {
    OthersStay(w, w', other, allowance, now, wait, subject);
    if subject in w && subject !in w' {
      forall c | c >= now - MINUTE ensures Live([], c) == Live(charged, c) {
        LiveOfLive(w[subject], now - MINUTE, c);
      }
    }
  }

  lemma OthersStay(w: Windows, w': Windows, other: string, allowance: nat, now: int, wait: int, subject: string)
    requires allowance >= 1 && subject != other && Attempted(w, w', other, allowance, now, wait)
    ensures subject in w' ==> subject in w && w'[subject] == w[subject]
  {
    if other != "" {
      var room: Windows :| RoomIn(w, room, now) && w' - {other} == room - {other};
      assert subject in w' ==> subject in w' - {other} && (w' - {other})[subject] == w'[subject];
      assert subject in room ==> subject in w && room[subject] == w[subject];
    }
  }

  lemma {:induction false} AttemptsInOrder(visits: seq<Visit>, subject: string)
    requires forall i, j | 0 <= i < j < |visits| :: visits[i].now <= visits[j].now
    ensures Sorted(Attempts(visits, subject))
    ensures forall i | 0 <= i < |Attempts(visits, subject)| :: Attempts(visits, subject)[i] <= visits[|visits| - 1].now
  {
    if visits != [] {
      var front := visits[..|visits| - 1];
      AttemptsInOrder(front, subject);
      assert front != [] ==> front[|front| - 1].now <= visits[|visits| - 1].now;
    }
  }

  lemma AdmittedStep(past: seq<int>, attempts: seq<int>, now: int, allowance: nat)
    ensures AdmittedAfter(past, attempts + [now], allowance) ==
            (var before := AdmittedAfter(past, attempts, allowance);
             if Admits(past + before, now, allowance) then before + [now] else before)
  {
    assert (attempts + [now])[..|attempts|] == attempts;
  }

  lemma ShowsGrown(hits: seq<int>, past: seq<int>, admitted: seq<int>, now: int, ok: bool, cutoff: int)
    requires Shows(hits, if ok then past + admitted + [now] else past + admitted, cutoff)
    ensures Shows(hits, past + (admitted + if ok then [now] else []), cutoff)
  {
    assert past + (admitted + if ok then [now] else []) == if ok then past + admitted + [now] else past + admitted;
  }

  lemma VisitShows(past: seq<int>, w: Windows, w': Windows, v: Visit, allowance: nat, subject: string, admitted: seq<int>)
    requires allowance >= 1 && subject != "" && Attempted(w, w', v.subject, allowance, v.now, v.wait)
    requires v.subject != subject && subject in w && subject !in w' ==> Expired(w[subject], v.now - MINUTE)
    requires Shows(HitsOf(w, subject), past + admitted, v.now - MINUTE)
    ensures Shows(HitsOf(w', subject), past + (admitted + if v.subject == subject && v.wait == 0 then [v.now] else []), v.now - MINUTE)
  {
    if v.subject == subject {
      OwnVisit(w, w', subject, allowance, v.now, v.wait, past + admitted);
    } else {
      OtherVisit(w, w', v.subject, allowance, v.now, v.wait, subject, past + admitted);
    }
    ShowsGrown(HitsOf(w', subject), past, admitted, v.now, v.subject == subject && v.wait == 0, v.now - MINUTE);
  }

  lemma HistoryBefore(tables: seq<Windows>, visits: seq<Visit>, allowance: nat, subject: string)
    requires allowance >= 1 && visits != [] && History(tables, visits, allowance) && Spared(tables, visits, subject)
    ensures History(tables[..|visits|], visits[..|visits| - 1], allowance)
    ensures Spared(tables[..|visits|], visits[..|visits| - 1], subject)
  {
  }

  lemma ShowsAtFirst(past: seq<int>, cutoff: int)
    ensures Shows(past, past + [], cutoff)
  {
    assert past + [] == past;
  }

  /** At every later instant a spared window counts what the subject came with and what it was let in for. */
  lemma {:induction false} SparedShows(tables: seq<Windows>, visits: seq<Visit>, allowance: nat, subject: string, now: int)
    requires allowance >= 1 && History(tables, visits, allowance) && Spared(tables, visits, subject) && subject != ""
    requires visits != [] ==> visits[|visits| - 1].now <= now
    ensures Shows(HitsOf(tables[|visits|], subject), HitsOf(tables[0], subject) + Admissions(visits, subject), now - MINUTE)
    decreases |visits|
  {
    var past := HitsOf(tables[0], subject);
    if visits == [] {
      ShowsAtFirst(past, now - MINUTE);
    } else {
      var n := |visits| - 1;
      HistoryBefore(tables, visits, allowance, subject);
      SparedShows(tables[..n + 1], visits[..n], allowance, subject, visits[n].now);
      VisitShows(past, tables[n], tables[n + 1], visits[n], allowance, subject, Admissions(visits[..n], subject));
    }
  }

  /** How the last visit shows in a subject's attempts and admissions. */
  lemma LastVisit(visits: seq<Visit>, subject: string)
    requires visits != []
    ensures var front, v := visits[..|visits| - 1], visits[|visits| - 1];
            && Attempts(visits, subject) == (if v.subject == subject then Attempts(front, subject) + [v.now] else Attempts(front, subject))
            && Admissions(visits, subject) ==
               (if v.subject == subject && v.wait == 0 then Admissions(front, subject) + [v.now] else Admissions(front, subject))
  {}

  lemma TurnIsAlone(w: Windows, w': Windows, visits: seq<Visit>, allowance: nat, subject: string, past: seq<int>)
    requires allowance >= 1 && visits != [] && subject != ""
    requires var front, v := visits[..|visits| - 1], visits[|visits| - 1];
             && Attempted(w, w', v.subject, allowance, v.now, v.wait)
             && Shows(HitsOf(w, subject), past + Admissions(front, subject), v.now - MINUTE)
             && Admissions(front, subject) == AdmittedAfter(past, Attempts(front, subject), allowance)
    ensures Admissions(visits, subject) == AdmittedAfter(past, Attempts(visits, subject), allowance)
  {
    var front, v := visits[..|visits| - 1], visits[|visits| - 1];
    LastVisit(visits, subject);
    if v.subject == subject {
      OwnVisit(w, w', subject, allowance, v.now, v.wait, past + Admissions(front, subject));
      AdmittedStep(past, Attempts(front, subject), v.now, allowance);
    }
  }

  /** A spared subject is let in exactly when its own history would let it in, whoever else comes. */
  lemma {:induction false} SparedIsAlone(tables: seq<Windows>, visits: seq<Visit>, allowance: nat, subject: string)
    requires allowance >= 1 && History(tables, visits, allowance) && Spared(tables, visits, subject) && subject != ""
    ensures Admissions(visits, subject) == AdmittedAfter(HitsOf(tables[0], subject), Attempts(visits, subject), allowance)
    decreases |visits|
  {
    if visits != [] {
      var n := |visits| - 1;
      HistoryBefore(tables, visits, allowance, subject);
      SparedIsAlone(tables[..n + 1], visits[..n], allowance, subject);
      SparedShows(tables[..n + 1], visits[..n], allowance, subject, visits[n].now);
      TurnIsAlone(tables[n], tables[n + 1], visits, allowance, subject, HitsOf(tables[0], subject));
    }
  }

  lemma RoomSpares(w: Windows, w': Windows, other: string, allowance: nat, now: int, wait: int, subject: string)
    requires allowance >= 1 && subject != other && Attempted(w, w', other, allowance, now, wait) && HasRoom(w, now)
    requires subject in w && subject !in w'
    ensures Expired(w[subject], now - MINUTE)
  {
    var room: Windows :| RoomIn(w, room, now) && w' - {other} == room - {other};
    assert subject !in w' - {other};
    assert subject !in room;
  }

  /** Nobody is forgotten while live as long as each attempt finds room or something expired. */
  lemma RoomSparesAll(tables: seq<Windows>, visits: seq<Visit>, allowance: nat, subject: string)
    requires allowance >= 1 && History(tables, visits, allowance)
    requires forall i {:trigger visits[i]} | 0 <= i < |visits| :: HasRoom(tables[i], visits[i].now)
    ensures Spared(tables, visits, subject)
  {
    forall i | 0 <= i < |visits| && visits[i].subject != subject && subject in tables[i] && subject !in tables[i + 1]
      ensures Expired(tables[i][subject], visits[i].now - MINUTE)
    {
      RoomSpares(tables[i], tables[i + 1], visits[i].subject, allowance, visits[i].now, visits[i].wait, subject);
    }
  }

  /** Among any traffic, a spared subject is let in at most `allowance` times in any half-open minute, counting what it came with. */
  lemma SparedIsBounded(tables: seq<Windows>, visits: seq<Visit>, allowance: nat, subject: string, lo: int)
    requires allowance >= 1 && History(tables, visits, allowance) && Spared(tables, visits, subject) && subject != ""
    ensures var past := HitsOf(tables[0], subject);
            var hits := past + Admissions(visits, subject);
            InMinute(hits, lo) <= allowance || InMinute(hits, lo) == InMinute(past, lo)
  {
    var past, attempts := HitsOf(tables[0], subject), Attempts(visits, subject);
    SparedIsAlone(tables, visits, allowance, subject);
    AttemptsInOrder(visits, subject);
    ChargedIsAdmitted(past, attempts, allowance);
    AtMostAllowancePerMinute(past, attempts, allowance, lo);
  }

  // ---- Subjects that are forgotten -------------------------------------------------------------------

  /** A window counts no more than the subject came with and was let in for. */
  ghost predicate Within(hits: seq<int>, past: seq<int>, admitted: seq<int>, cutoff: int) {
    forall c | c >= cutoff :: |Live(hits, c)| <= |Live(past, c)| + |Live(admitted, c)|
  }

  lemma WithinGrows(hits: seq<int>, hits': seq<int>, past: seq<int>, admitted: seq<int>, now: int, ok: bool, cutoff: int)
    requires Within(hits, past, admitted, cutoff) && Shows(hits', if ok then hits + [now] else hits, cutoff)
    ensures Within(hits', past, admitted + (if ok then [now] else []), cutoff)
  {
    forall c | c >= cutoff ensures |Live(hits', c)| <= |Live(past, c)| + |Live(admitted + (if ok then [now] else []), c)| {
      assert Live(hits', c) == Live(if ok then hits + [now] else hits, c) && |Live(hits, c)| <= |Live(past, c)| + |Live(admitted, c)|;
      if ok {
        LiveAppend(hits, now, c);
        LiveAppend(admitted, now, c);
      } else {
        assert admitted + [] == admitted;
      }
    }
  }

  lemma OwnVisitStaysWithin(w: Windows, w': Windows, v: Visit, allowance: nat, past: seq<int>, admitted: seq<int>)
    requires allowance >= 1 && v.subject != "" && Attempted(w, w', v.subject, allowance, v.now, v.wait)
    requires Within(HitsOf(w, v.subject), past, admitted, v.now - MINUTE)
    ensures v.wait == 0 <==> Admits(HitsOf(w, v.subject), v.now, allowance)
    ensures Within(HitsOf(w', v.subject), past, admitted + (if v.wait == 0 then [v.now] else []), v.now - MINUTE)
  {
    var hits := HitsOf(w, v.subject);
    OwnVisit(w, w', v.subject, allowance, v.now, v.wait, hits);
    WithinGrows(hits, HitsOf(w', v.subject), past, admitted, v.now, v.wait == 0, v.now - MINUTE);
  }

  lemma VisitStaysWithin(w: Windows, w': Windows, v: Visit, allowance: nat, subject: string, past: seq<int>, admitted: seq<int>)
    requires allowance >= 1 && subject != "" && Attempted(w, w', v.subject, allowance, v.now, v.wait)
    requires Within(HitsOf(w, subject), past, admitted, v.now - MINUTE)
    ensures Within(HitsOf(w', subject), past, admitted + (if v.subject == subject && v.wait == 0 then [v.now] else []), v.now - MINUTE)
  {
    if v.subject == subject {
      OwnVisitStaysWithin(w, w', v, allowance, past, admitted);
    } else {
      OthersStay(w, w', v.subject, allowance, v.now, v.wait, subject);
      assert admitted + [] == admitted;
    }
  }

  lemma HistoryFront(tables: seq<Windows>, visits: seq<Visit>, allowance: nat)
    requires allowance >= 1 && visits != [] && History(tables, visits, allowance)
    ensures History(tables[..|visits|], visits[..|visits| - 1], allowance)
  {}

  /** However often it is forgotten, a window never counts more than the subject came with and was let in for. */
  lemma {:induction false} TablesStayWithin(tables: seq<Windows>, visits: seq<Visit>, allowance: nat, subject: string, now: int)
    requires allowance >= 1 && History(tables, visits, allowance) && subject != ""
    requires visits != [] ==> visits[|visits| - 1].now <= now
    ensures Within(HitsOf(tables[|visits|], subject), HitsOf(tables[0], subject), Admissions(visits, subject), now - MINUTE)
    decreases |visits|
  {
    if visits != [] {
      var n := |visits| - 1;
      HistoryFront(tables, visits, allowance);
      TablesStayWithin(tables[..n + 1], visits[..n], allowance, subject, visits[n].now);
      VisitStaysWithin(tables[n], tables[n + 1], visits[n], allowance, subject, HitsOf(tables[0], subject), Admissions(visits[..n], subject));
    }
  }

  /** Whoever is level with a window of its own is let in when that one would let it in. */
  lemma LevelIsAdmitted(hits: seq<int>, past: seq<int>, x: seq<int>, y: seq<int>, now: int, allowance: nat)
    requires Within(hits, past, y, now - MINUTE) && Sorted(x) && Sorted(y) && |x| == |y| && NoWorse(y, x)
    requires Admits(past + x, now, allowance)
    ensures Admits(hits, now, allowance)
  {
    LiveConcat(past, x, now - MINUTE);
    LevelIsLive(x, y, now - MINUTE);
    assert |Live(hits, now - MINUTE)| <= |Live(past, now - MINUTE)| + |Live(y, now - MINUTE)|;
  }

  lemma LevelIsLive(x: seq<int>, y: seq<int>, cutoff: int)
    requires Sorted(x) && Sorted(y) && |x| == |y| && NoWorse(y, x)
    ensures |Live(y, cutoff)| <= |Live(x, cutoff)|
  {
    LiveIsShorter(y, cutoff);
    var n := |Live(y, cutoff)|;
    if n > 0 {
      LiveAtLeast(y, cutoff, n);
      LiveAtLeast(x, cutoff, n);
    }
  }

  lemma {:induction false} AdmissionsInOrder(visits: seq<Visit>, subject: string)
    requires forall i, j | 0 <= i < j < |visits| :: visits[i].now <= visits[j].now
    ensures Sorted(Admissions(visits, subject))
    ensures forall i | 0 <= i < |Admissions(visits, subject)| :: Admissions(visits, subject)[i] <= visits[|visits| - 1].now
  {
    if visits != [] {
      var front, v := visits[..|visits| - 1], visits[|visits| - 1];
      AdmissionsInOrder(front, subject);
      assert front != [] ==> front[|front| - 1].now <= v.now;
      assert Admissions(visits, subject) == Admissions(front, subject) || Admissions(visits, subject) == Admissions(front, subject) + [v.now];
      SortedAppend(Admissions(front, subject), Admissions(visits, subject), v.now);
    }
  }

  lemma OwnVisitIsNoWorse(w: Windows, w': Windows, v: Visit, allowance: nat, past: seq<int>, attempts: seq<int>, y: seq<int>)
    requires allowance >= 1 && v.subject != "" && Attempted(w, w', v.subject, allowance, v.now, v.wait)
    requires Within(HitsOf(w, v.subject), past, y, v.now - MINUTE) && Sorted(attempts) && Sorted(y)
    requires (forall i | 0 <= i < |y| :: y[i] <= v.now) && NoWorse(y, AdmittedAfter(past, attempts, allowance))
    ensures NoWorse(if v.wait == 0 then y + [v.now] else y, AdmittedAfter(past, attempts + [v.now], allowance))
  {
    var x := AdmittedAfter(past, attempts, allowance);
    OwnVisitStaysWithin(w, w', v, allowance, past, y);
    AdmittedInOrder(past, attempts, allowance);
    AdmittedStep(past, attempts, v.now, allowance);
    if |x| == |y| && Admits(past + x, v.now, allowance) { LevelIsAdmitted(HitsOf(w, v.subject), past, x, y, v.now, allowance); }
    NoWorseGrows(y, x, v.now, v.wait == 0, Admits(past + x, v.now, allowance));
  }

  /** What a history says about its last visit. */
  lemma LastTurn(tables: seq<Windows>, visits: seq<Visit>, allowance: nat, subject: string)
    requires allowance >= 1 && visits != [] && History(tables, visits, allowance) && subject != ""
    ensures var n, front, v := |visits| - 1, visits[..|visits| - 1], visits[|visits| - 1];
            && Attempted(tables[n], tables[n + 1], v.subject, allowance, v.now, v.wait)
            && Within(HitsOf(tables[n], subject), HitsOf(tables[0], subject), Admissions(front, subject), v.now - MINUTE)
            && Sorted(Attempts(front, subject)) && Sorted(Admissions(front, subject))
            && (forall i | 0 <= i < |Admissions(front, subject)| :: Admissions(front, subject)[i] <= v.now)
  {
    var n, front, v := |visits| - 1, visits[..|visits| - 1], visits[|visits| - 1];
    HistoryFront(tables, visits, allowance);
    assert front != [] ==> front[n - 1].now <= v.now;
    TablesStayWithin(tables[..n + 1], front, allowance, subject, v.now);
    AttemptsInOrder(front, subject);
    AdmissionsInOrder(front, subject);
  }

  lemma TurnIsNoWorse(w: Windows, w': Windows, visits: seq<Visit>, allowance: nat, subject: string, past: seq<int>)
    requires allowance >= 1 && visits != [] && subject != ""
    requires var front, v := visits[..|visits| - 1], visits[|visits| - 1];
             && Attempted(w, w', v.subject, allowance, v.now, v.wait)
             && Within(HitsOf(w, subject), past, Admissions(front, subject), v.now - MINUTE)
             && Sorted(Attempts(front, subject)) && Sorted(Admissions(front, subject))
             && (forall i | 0 <= i < |Admissions(front, subject)| :: Admissions(front, subject)[i] <= v.now)
             && NoWorse(Admissions(front, subject), AdmittedAfter(past, Attempts(front, subject), allowance))
    ensures NoWorse(Admissions(visits, subject), AdmittedAfter(past, Attempts(visits, subject), allowance))
  {
    var front, v := visits[..|visits| - 1], visits[|visits| - 1];
    LastVisit(visits, subject);
    if v.subject == subject {
      OwnVisitIsNoWorse(w, w', v, allowance, past, Attempts(front, subject), Admissions(front, subject));
    }
  }

  /**
   Whatever other subjects do and however often sweeps forget it, after any number
   of visits a subject was let in at least as often as by a window of its own, its
   n-th time no later.
   */
  lemma {:induction false} NobodyIsWorseOff(tables: seq<Windows>, visits: seq<Visit>, allowance: nat, subject: string)
    requires allowance >= 1 && History(tables, visits, allowance) && subject != ""
    ensures NoWorse(Admissions(visits, subject), AdmittedAfter(HitsOf(tables[0], subject), Attempts(visits, subject), allowance))
    decreases |visits|
  {
    if visits != [] {
      var n := |visits| - 1;
      HistoryFront(tables, visits, allowance);
      NobodyIsWorseOff(tables[..n + 1], visits[..n], allowance, subject);
      LastTurn(tables, visits, allowance, subject);
      TurnIsNoWorse(tables[n], tables[n + 1], visits, allowance, subject, HitsOf(tables[0], subject));
    }
  }

  // ---- Subjects that are never dropped ---------------------------------------------------------------

  /** No sweep of somebody else's attempt drops the subject's window, live or expired. */
  ghost predicate NeverDropped(tables: seq<Windows>, visits: seq<Visit>, subject: string)
    requires |tables| == |visits| + 1
  {
    forall i {:trigger visits[i]} | 0 <= i < |visits| && visits[i].subject != subject && subject in tables[i] :: subject in tables[i + 1]
  }

  lemma NeverDroppedBefore(tables: seq<Windows>, visits: seq<Visit>, subject: string)
    requires visits != [] && |tables| == |visits| + 1 && NeverDropped(tables, visits, subject)
    ensures NeverDropped(tables[..|visits|], visits[..|visits| - 1], subject)
  {}

  /** The window a table holds for such a subject is the compacted window of its own attempts. */
  lemma {:induction false} KeptIsWindow(tables: seq<Windows>, visits: seq<Visit>, allowance: nat, subject: string)
    requires allowance >= 1 && History(tables, visits, allowance) && NeverDropped(tables, visits, subject) && subject != ""
    ensures HitsOf(tables[|visits|], subject) == Window(HitsOf(tables[0], subject), Attempts(visits, subject), allowance)
    decreases |visits|
  {
    if visits != [] {
      var n := |visits| - 1;
      HistoryFront(tables, visits, allowance);
      NeverDroppedBefore(tables, visits, subject);
      KeptIsWindow(tables[..n + 1], visits[..n], allowance, subject);
      LastVisit(visits, subject);
      if visits[n].subject == subject {
        OwnVisitIsNextWindow(tables[n], tables[n + 1], visits[n], allowance);
        WindowStep(HitsOf(tables[0], subject), Attempts(visits[..n], subject), allowance, visits[n].now);
      } else {
        OthersStay(tables[n], tables[n + 1], visits[n].subject, allowance, visits[n].now, visits[n].wait, subject);
      }
    }
  }

  lemma OwnVisitIsNextWindow(w: Windows, w': Windows, v: Visit, allowance: nat)
    requires allowance >= 1 && v.subject != "" && Attempted(w, w', v.subject, allowance, v.now, v.wait)
    ensures HitsOf(w', v.subject) == NextWindow(HitsOf(w, v.subject), v.now, allowance)
  {
    var hits := HitsOf(w, v.subject);
    OwnVisit(w, w', v.subject, allowance, v.now, v.wait, hits);
    assert Live(hits, v.now - MINUTE) + [] == Live(hits, v.now - MINUTE);
  }

  lemma WindowStep(past: seq<int>, attempts: seq<int>, allowance: nat, now: int)
    ensures Window(past, attempts + [now], allowance) == NextWindow(Window(past, attempts, allowance), now, allowance)
  {
    assert (attempts + [now])[..|attempts|] == attempts;
  }
}
