/** How long a lease lasts: over whole runs of the lock service, and of gets on all nodes. */
module LeaseTime {
  import opened Basics
  import opened EventChain
  import opened MsgLock
  import opened LockRuns
  import D = Delivery
  import FO = FanOut

  /** Every event of p on the chain is due at d. */
  ghost predicate AllDueAt(s: Locks, p: Pair, d: int) {
    forall e :: e in s.chain && PairOf(e) == p ==> e.join + e.sched == d
  }

  /** Some event of p on the chain is due at d. */
  ghost predicate OneDueAt(s: Locks, p: Pair, d: int) {
    exists e :: e in s.chain && PairOf(e) == p && e.join + e.sched == d
  }

  lemma ScheduledMembers(evs: seq<Ev>, e: Ev)
    ensures forall x :: x in Scheduled(evs, e) <==> x in evs || x == e
  {
    InsertedAtMembers(evs, Slot(evs, e.Deadline()), e);
  }

  lemma CancelledMembers(evs: seq<Ev>, q: string, id: int, sched: int)
    ensures forall x :: x in Cancelled(evs, q, id, sched) ==> x in evs
    ensures forall x :: x in evs && PairOf(x) != Pair(q, id) ==> x in Cancelled(evs, q, id, sched)
  {
    var k, r := FirstMatch(evs, q, id, sched), Cancelled(evs, q, id, sched);
    if k < |evs| {
      forall x | x in evs && PairOf(x) != Pair(q, id)
        ensures x in r
      {
        var i :| 0 <= i < |evs| && evs[i] == x;
        assert r[if i < k then i else i - 1] == x;
      }
    }
  }

  /** A pair is granted by a lock, and by nothing else. */
  lemma GrantedDue(s: Locks, tmout: int, q: string, id: int, cur: int)
    requires Pair(q, id) !in s.pairs && Pair(q, id) in LockNext(s, tmout, q, id, cur).pairs
    ensures var t := LockNext(s, tmout, q, id, cur);
            && OneDueAt(t, Pair(q, id), 1000 * cur + tmout)
            && ((forall e :: e in s.chain ==> PairOf(e) != Pair(q, id)) ==>
                  AllDueAt(t, Pair(q, id), 1000 * cur + tmout))
  {
    var e := Ev(q, id, tmout, 1000 * cur);
    ScheduledMembers(s.chain, e);
    assert PairOf(e) == Pair(q, id) && e.join + e.sched == 1000 * cur + tmout;
  }

  /** While a pair stays locked, its events stay as they are. */
  lemma StepDue(s: Locks, tmout: int, a: Step, p: Pair, d: int)
    requires Covered(s, tmout) && p in s.pairs && p in LockRuns.Next(s, tmout, a).pairs
    ensures AllDueAt(s, p, d) ==> AllDueAt(LockRuns.Next(s, tmout, a), p, d)
    ensures OneDueAt(s, p, d) ==> OneDueAt(LockRuns.Next(s, tmout, a), p, d)
  {
    StepMember(s, tmout, a, p);
    PairsCovered(s, tmout);
    if a.DoLock? {
      ExistsExactly(s.pairs, a.queue, a.id);
      ScheduledMembers(s.chain, Ev(a.queue, a.id, tmout, 1000 * a.cur));
    } else if Target(s, a).Some? {
      var g := Target(s, a).value;
      CancelledMembers(s.chain, g.queue, g.id, tmout);
    }
  }

  /** In agreement, an expiry that ends a lease ends that of the head, which is due. */
  lemma ExpiryDue(s: Locks, tmout: int, c: int, p: Pair, d: int)
    requires Agree(s, tmout) && p in s.pairs && p !in LockRuns.Next(s, tmout, Expire(c)).pairs && AllDueAt(s, p, d)
    ensures d <= 1000 * c
  {
    AgreeCovered(s, tmout);
    StepMember(s, tmout, Expire(c), p);
    SafeCutsNothing(s, tmout, Expire(c), p);
    assert s.chain[0] in s.chain;
  }

  /** Pair p is locked from after step i up to before step j. */
  ghost predicate HeldThrough(tmout: int, run: seq<Step>, i: nat, j: nat, p: Pair)
    requires i <= j <= |run|
  {
    forall k :: i < k <= j ==> p in LockRuns.After(tmout, run, k).pairs
  }

  lemma {:induction false} HeldDue(tmout: int, run: seq<Step>, i: nat, j: nat, q: string, id: int, cur: int)
    requires i < j <= |run| && run[i] == DoLock(q, id, cur) && Pair(q, id) !in LockRuns.After(tmout, run, i).pairs
    requires HeldThrough(tmout, run, i, j, Pair(q, id))
    ensures OneDueAt(LockRuns.After(tmout, run, j), Pair(q, id), 1000 * cur + tmout)
    ensures (forall e :: e in LockRuns.After(tmout, run, i).chain ==> PairOf(e) != Pair(q, id)) ==>
              AllDueAt(LockRuns.After(tmout, run, j), Pair(q, id), 1000 * cur + tmout)
  {
    hide Covered, AllDueAt, OneDueAt, LockNext;
    assert Pair(q, id) in LockRuns.After(tmout, run, j).pairs;
    if i + 1 < j {
      assert HeldThrough(tmout, run, i, j - 1, Pair(q, id));
      HeldDue(tmout, run, i, j - 1, q, id, cur);
      LockRuns.RunCovered(tmout, run, j - 1);
      hide LockRuns.Next;
      StepDue(LockRuns.After(tmout, run, j - 1), tmout, run[j - 1], Pair(q, id), 1000 * cur + tmout);
    } else {
      GrantedDue(LockRuns.After(tmout, run, i), tmout, q, id, cur);
    }
  }

  /** A lease is not cut short by its expiry: in a run whose unlocks are safe, if a pair is granted when the clock
      reads cur, and stays locked until an expiry at reading c ends its lease, then the timeout is over. */
  lemma LeaseLasts(tmout: int, run: seq<Step>, i: nat, j: nat, q: string, id: int, cur: int, c: int)
    requires i < j < |run| && SafeThrough(tmout, run, j) && run[i] == DoLock(q, id, cur) && run[j] == Expire(c)
    requires Pair(q, id) !in LockRuns.After(tmout, run, i).pairs
    requires forall k :: i < k <= j ==> Pair(q, id) in LockRuns.After(tmout, run, k).pairs
    requires Pair(q, id) !in LockRuns.After(tmout, run, j + 1).pairs
    ensures 1000 * c >= 1000 * cur + tmout
  {
    hide Agree, LockRuns.Next, AllDueAt;
    assert HeldThrough(tmout, run, i, j, Pair(q, id));
    LockRuns.SafePrefix(tmout, run, i, j);
    LockRuns.SafePrefix(tmout, run, j, j);
    LockedHasEvent(LockRuns.After(tmout, run, i), tmout, Pair(q, id));
    HeldDue(tmout, run, i, j, q, id, cur);
    ExpiryDue(LockRuns.After(tmout, run, j), tmout, c, Pair(q, id), 1000 * cur + tmout);
  }

  /** Whatever the unlocks of a run name: if no event of the pair was left on the chain when it was granted, its
      own event does not come up before the timeout is over. */
  lemma LeaseLastsUnlessLeftover(tmout: int, run: seq<Step>, i: nat, j: nat, q: string, id: int, cur: int, c: int)
    requires i < j < |run| && run[i] == DoLock(q, id, cur) && run[j] == Expire(c)
    requires Pair(q, id) !in LockRuns.After(tmout, run, i).pairs
    requires forall e :: e in LockRuns.After(tmout, run, i).chain ==> PairOf(e) != Pair(q, id)
    requires forall k :: i < k <= j ==> Pair(q, id) in LockRuns.After(tmout, run, k).pairs
    requires LockRuns.Releases(LockRuns.After(tmout, run, j), run[j], Pair(q, id))
    ensures 1000 * c >= 1000 * cur + tmout
  {
    hide LockRuns.Next, LockRuns.After;
    assert HeldThrough(tmout, run, i, j, Pair(q, id));
    HeldDue(tmout, run, i, j, q, id, cur);
    assert LockRuns.After(tmout, run, j).chain[0] in LockRuns.After(tmout, run, j).chain;
  }

  lemma {:induction false} DrainShrinks(s: Locks, tmout: int, clock: nat -> int, k: nat, p: Pair)
    requires Covered(s, tmout) && p in Drain(s, tmout, clock, k).pairs
    ensures p in s.pairs
    decreases |s.chain|
  {
    if s.chain != [] && s.chain[0].Deadline() <= 1000 * clock(k) {
      var u := DelNext(s, tmout, s.chain[0].queue, s.chain[0].id);
      FireHead(s, tmout);
      CoveredDel(s, tmout, s.chain[0].queue, s.chain[0].id);
      DelTakes(s, tmout, s.chain[0].queue, s.chain[0].id);
      hide DelNext, Covered;
      DrainShrinks(u, tmout, clock, k + 1, p);
    }
  }

  /** A drain ends the lease of every pair of which some event is due throughout it. */
  lemma {:induction false} DrainEnds(s: Locks, tmout: int, clock: nat -> int, k: nat, p: Pair, d: int)
    requires Covered(s, tmout) && OneDueAt(s, p, d) && forall n: nat :: d <= 1000 * clock(n)
    ensures p !in Drain(s, tmout, clock, k).pairs
    decreases |s.chain|
  {
    var e :| e in s.chain && PairOf(e) == p && e.join + e.sched == d;
    var h := s.chain[0];
    var u := DelNext(s, tmout, h.queue, h.id);
    assert h.Deadline() <= d by { SortedHead(s.chain, e); }
    assert d <= 1000 * clock(k);
    FireHead(s, tmout);
    CoveredDel(s, tmout, h.queue, h.id);
    DelTakes(s, tmout, h.queue, h.id);
    TakenExactly(s.pairs, h.queue, h.id);
    assert Drain(s, tmout, clock, k) == Drain(u, tmout, clock, k + 1);
    if PairOf(h) == p {
      hide Covered, Drain;
      if p in Drain(u, tmout, clock, k + 1).pairs { DrainShrinks(u, tmout, clock, k + 1, p); }
    } else {
      CancelledMembers(s.chain, h.queue, h.id, tmout);
      assert e in u.chain;
      hide Covered, Drain, DelNext;
      DrainEnds(u, tmout, clock, k + 1, p, d);
    }
  }

  lemma SortedHead(evs: seq<Ev>, e: Ev)
    requires Sorted(evs) && e in evs
    ensures evs != [] && evs[0].Deadline() <= e.Deadline()
  {
    var i :| 0 <= i < |evs| && evs[i] == e;
  }

  /** And it does not outlast it: in any run, once the timeout is over for a pair that has stayed locked since it
      was granted, a drain at that reading of the clock, or a later one, leaves it free. */
  lemma ExpiredIsFree(tmout: int, run: seq<Step>, i: nat, j: nat, q: string, id: int, cur: int, clock: nat -> int)
    requires i < j <= |run| && run[i] == DoLock(q, id, cur) && Pair(q, id) !in LockRuns.After(tmout, run, i).pairs
    requires forall k :: i < k <= j ==> Pair(q, id) in LockRuns.After(tmout, run, k).pairs
    requires forall n: nat :: 1000 * clock(n) >= 1000 * cur + tmout
    ensures ChainOk(LockRuns.After(tmout, run, j).chain, tmout)
    ensures Pair(q, id) !in Drain(LockRuns.After(tmout, run, j), tmout, clock, 0).pairs
  {
    assert HeldThrough(tmout, run, i, j, Pair(q, id));
    LockRuns.RunCovered(tmout, run, j);
    hide LockRuns.Next, LockRuns.After, Drain, OneDueAt;
    HeldDue(tmout, run, i, j, q, id, cur);
    DrainEnds(LockRuns.After(tmout, run, j), tmout, clock, 0, Pair(q, id), 1000 * cur + tmout);
  }

  lemma {:induction false} LeftoverStays(tmout: int, run: seq<Step>, i: nat, j: nat, q: string, id: int, d: int)
    requires i < j <= |run| && run[i].DoLock? && run[i].queue == q && run[i].id == id
    requires OneDueAt(LockRuns.After(tmout, run, i), Pair(q, id), d) && HeldThrough(tmout, run, i, j, Pair(q, id))
    ensures OneDueAt(LockRuns.After(tmout, run, j), Pair(q, id), d)
  {
    hide Covered, OneDueAt, LockNext;
    assert Pair(q, id) in LockRuns.After(tmout, run, j).pairs;
    if i + 1 < j {
      assert HeldThrough(tmout, run, i, j - 1, Pair(q, id));
      LeftoverStays(tmout, run, i, j - 1, q, id, d);
      LockRuns.RunCovered(tmout, run, j - 1);
      hide LockRuns.Next;
      StepDue(LockRuns.After(tmout, run, j - 1), tmout, run[j - 1], Pair(q, id), d);
    } else {
      LockKeepsEvents(LockRuns.After(tmout, run, i), tmout, run[i], Pair(q, id), d);
    }
  }

  lemma LockKeepsEvents(s: Locks, tmout: int, a: Step, p: Pair, d: int)
    requires a.DoLock? && OneDueAt(s, p, d)
    ensures OneDueAt(LockRuns.Next(s, tmout, a), p, d)
  {
    ScheduledMembers(s.chain, Ev(a.queue, a.id, tmout, 1000 * a.cur));
  }

  /** A leftover event, which an unlock that took another queue's lock away has left behind, does end the next
      lease of its message as soon as it is due, however recent that lease is. */
  lemma LeftoverEnds(tmout: int, run: seq<Step>, i: nat, j: nat, q: string, id: int, d: int, clock: nat -> int)
    requires i < j <= |run| && run[i].DoLock? && run[i].queue == q && run[i].id == id
    requires exists e :: e in LockRuns.After(tmout, run, i).chain && PairOf(e) == Pair(q, id) && e.join + e.sched == d
    requires forall k :: i < k <= j ==> Pair(q, id) in LockRuns.After(tmout, run, k).pairs
    requires forall n: nat :: d <= 1000 * clock(n)
    ensures ChainOk(LockRuns.After(tmout, run, j).chain, tmout)
    ensures Pair(q, id) !in Drain(LockRuns.After(tmout, run, j), tmout, clock, 0).pairs
  {
    assert HeldThrough(tmout, run, i, j, Pair(q, id));
    assert OneDueAt(LockRuns.After(tmout, run, i), Pair(q, id), d);
    LockRuns.RunCovered(tmout, run, j);
    hide LockRuns.Next, LockRuns.After, Drain, OneDueAt;
    LeftoverStays(tmout, run, i, j, q, id, d);
    DrainEnds(LockRuns.After(tmout, run, j), tmout, clock, 0, Pair(q, id), d);
  }

  lemma FirstLocks()
    ensures var s := LockNext(LockNext(Locks([], []), 5000, "a", 1, 0), 5000, "b", 2, 0);
            s == Locks([Ev("a", 1, 5000, 0), Ev("b", 2, 5000, 0)], [Pair("a", 1), Pair("b", 2)])
  {
    var s := LockNext(Locks([], []), 5000, "a", 1, 0);
    assert s == Locks([Ev("a", 1, 5000, 0)], [Pair("a", 1)]);
    assert Find(s.pairs, "b") == 1 && UpperBound(s.pairs, "b") == 1 && Slot(s.chain, 5000) == 1;
  }

  lemma StrayUnlock(x: Ev, y: Ev, p: Pair, r: Pair)
    requires x == Ev("a", 1, 5000, 0) && y == Ev("b", 2, 5000, 0) && p == Pair("a", 1) && r == Pair("b", 2)
    ensures DelNext(Locks([x, y], [p, r]), 5000, "a", 2) == Locks([x, y], [p])
  {
    assert Find([p, r], "a") == 0 && Scan([p, r], 0, 2) == Scan([p, r], 1, 2) == 1;
    assert FirstMatch([x, y], "a", 2, 5000) == 2 && RemoveAt([p, r], 1) == [p];
  }

  lemma SecondLock(x: Ev, y: Ev, z: Ev, p: Pair, r: Pair)
    requires x == Ev("a", 1, 5000, 0) && y == Ev("b", 2, 5000, 0) && z == Ev("b", 2, 5000, 4000)
    requires p == Pair("a", 1) && r == Pair("b", 2)
    ensures LockNext(Locks([x, y], [p]), 5000, "b", 2, 4) == Locks([x, y, z], [p, r])
  {
    assert Find([p], "b") == 1 && UpperBound([p], "b") == 1 && Slot([x, y], 9000) == 2;
  }

  lemma LastEvents(x: Ev, y: Ev, z: Ev, p: Pair, r: Pair)
    requires x == Ev("a", 1, 5000, 0) && y == Ev("b", 2, 5000, 0) && z == Ev("b", 2, 5000, 4000)
    requires p == Pair("a", 1) && r == Pair("b", 2)
    ensures DelNext(Locks([x, y, z], [p, r]), 5000, "a", 1) == Locks([y, z], [r])
    ensures LockRuns.Next(Locks([y, z], [r]), 5000, Expire(5)).pairs == []
  {
    assert FirstMatch([x, y, z], "a", 1, 5000) == 0 && RemoveAt([x, y, z], 0) == [y, z];
    assert Find([p, r], "a") == 0 && RemoveAt([p, r], 0) == [r];
    assert Find([r], "b") == 0 && RemoveAt([r], 0) == [];
  }

  /** A run with such a lease: granted at 4 for five seconds, it is over at 5. */
  lemma LeftoverShortens()
    ensures var run := [DoLock("a", 1, 0), DoLock("b", 2, 0), DoUnLock("a", 2), DoLock("b", 2, 4), DoUnLock("a", 1),
                        Expire(5)];
            && Pair("b", 2) !in LockRuns.After(5000, run, 3).pairs && Pair("b", 2) in LockRuns.After(5000, run, 4).pairs
            && Pair("b", 2) in LockRuns.After(5000, run, 5).pairs && Pair("b", 2) !in LockRuns.After(5000, run, 6).pairs
  {
    var run := [DoLock("a", 1, 0), DoLock("b", 2, 0), DoUnLock("a", 2), DoLock("b", 2, 4), DoUnLock("a", 1), Expire(5)];
    var x, y, z := Ev("a", 1, 5000, 0), Ev("b", 2, 5000, 0), Ev("b", 2, 5000, 4000);
    var p, r := Pair("a", 1), Pair("b", 2);
    assert LockRuns.After(5000, run, 0) == Locks([], []);
    hide LockNext, DelNext, LockRuns.After;
    FirstLocks();
    StrayUnlock(x, y, p, r);
    SecondLock(x, y, z, p, r);
    LastEvents(x, y, z, p, r);
    AfterStep(run, 0);
    AfterStep(run, 1);
    AfterStep(run, 2);
    AfterStep(run, 3);
    AfterStep(run, 4);
    AfterStep(run, 5);
  }

  lemma AfterStep(run: seq<Step>, n: nat)
    requires n < |run|
    ensures LockRuns.After(5000, run, n + 1) == LockRuns.Next(LockRuns.After(5000, run, n), 5000, run[n])
  {
  }

  lemma {:induction false} DeliveredDue(tmout: int, run: seq<D.Step>, i: nat, j: nat, n: FO.Addr, cur: int, p: Pair)
    requires i < j <= |run| && run[i] == D.Ask(n, cur) && p !in D.After(tmout, run, i).locks.pairs
    requires forall k :: i < k <= j ==> p in D.After(tmout, run, k).locks.pairs
    ensures OneDueAt(D.After(tmout, run, j).locks, p, 1000 * cur + tmout)
    ensures (forall e :: e in D.After(tmout, run, i).locks.chain ==> PairOf(e) != p) ==>
              AllDueAt(D.After(tmout, run, j).locks, p, 1000 * cur + tmout)
  {
    hide Covered, AllDueAt, OneDueAt, LockNext, D.Next, D.Request, LockRuns.Next;
    var s, a := D.After(tmout, run, j - 1), run[j - 1];
    assert D.After(tmout, run, j) == D.Next(s, tmout, a) && p in D.After(tmout, run, j).locks.pairs;
    D.NextLocks(s, tmout, a);
    if i + 1 < j {
      DeliveredDue(tmout, run, i, j - 1, n, cur, p);
      D.RunCovered(tmout, run, j - 1);
      if D.Request(s, a).Some? { StepDue(s.locks, tmout, D.Request(s, a).value, p, 1000 * cur + tmout); }
    } else {
      AskLocks(s, tmout, n, cur, p);
      GrantedDue(s.locks, tmout, p.queue, p.id, cur);
    }
  }

  /** What an ask locks, if anything. */
  lemma AskLocks(s: D.State, tmout: int, n: FO.Addr, cur: int, p: Pair)
    requires p !in s.locks.pairs && p in D.LocksAfter(s, tmout, D.Ask(n, cur)).pairs
    ensures D.LocksAfter(s, tmout, D.Ask(n, cur)) == LockNext(s.locks, tmout, p.queue, p.id, cur)
  {
    if D.Request(s, D.Ask(n, cur)).Some? {
      var l := D.Request(s, D.Ask(n, cur)).value;
      InsertedAtMembers(s.locks.pairs, UpperBound(s.locks.pairs, l.queue), Pair(l.queue, l.id));
    }
  }

  /** The same of a message that a get on any node has returned: until its timeout is over no expiry lets it go, if
      the unlocks of the run are safe. */
  lemma DeliveryLasts(tmout: int, run: seq<D.Step>, i: nat, j: nat, n: FO.Addr, cur: int, c: int, p: Pair)
    requires i < j < |run| && D.SafeThrough(tmout, run, j) && run[i] == D.Ask(n, cur) && run[j] == D.Expire(c)
    requires p !in D.After(tmout, run, i).locks.pairs && p !in D.After(tmout, run, j + 1).locks.pairs
    requires forall k :: i < k <= j ==> p in D.After(tmout, run, k).locks.pairs
    ensures 1000 * c >= 1000 * cur + tmout
  {
    hide Agree, D.Next, AllDueAt, LockRuns.Next;
    D.SafePrefix(tmout, run, i, j);
    D.SafeAgrees(tmout, run, i);
    D.SafeAgrees(tmout, run, j);
    LockedHasEvent(D.After(tmout, run, i).locks, tmout, p);
    DeliveredDue(tmout, run, i, j, n, cur, p);
    D.NextLocks(D.After(tmout, run, j), tmout, run[j]);
    ExpiryDue(D.After(tmout, run, j).locks, tmout, c, p, 1000 * cur + tmout);
  }

  /** And once its timeout is over, a drain at that reading of the clock, or a later one, leaves it free. */
  lemma DeliveryExpires(tmout: int, run: seq<D.Step>, i: nat, j: nat, n: FO.Addr, cur: int, p: Pair, clock: nat -> int)
    requires i < j <= |run| && run[i] == D.Ask(n, cur) && p !in D.After(tmout, run, i).locks.pairs
    requires forall k :: i < k <= j ==> p in D.After(tmout, run, k).locks.pairs
    requires forall m: nat :: 1000 * clock(m) >= 1000 * cur + tmout
    ensures ChainOk(D.After(tmout, run, j).locks.chain, tmout)
    ensures p !in Drain(D.After(tmout, run, j).locks, tmout, clock, 0).pairs
  {
    D.RunCovered(tmout, run, j);
    hide D.Next, Drain, OneDueAt;
    DeliveredDue(tmout, run, i, j, n, cur, p);
    DrainEnds(D.After(tmout, run, j).locks, tmout, clock, 0, p, 1000 * cur + tmout);
  }
}
