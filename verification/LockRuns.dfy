/** Whole runs of the lock service: any interleaving of Lock and UnLock requests
    with the expiry of leases, at arbitrary clock readings. */
module LockRuns {
  import opened Basics
  import opened MsgLock

  /** One request or one expiry. Expire reads the head of the chain and, if it is due, releases it. */
  datatype Step =
    | DoLock(queue: string, id: int, cur: int)
    | DoUnLock(queue: string, id: int)
    | Expire(cur: int)

  function Next(s: Locks, tmout: int, a: Step): Locks {
    match a
    case DoLock(q, id, cur) => LockNext(s, tmout, q, id, cur)
    case DoUnLock(q, id) => DelNext(s, tmout, q, id)
    case Expire(cur) => if Due(s, cur) then DelNext(s, tmout, s.chain[0].queue, s.chain[0].id) else s
  }

  predicate Due(s: Locks, cur: int) {
    s.chain != [] && s.chain[0].Deadline() <= 1000 * cur
  }

  /** The step is a Lock request that is granted. */
  predicate Grants(s: Locks, a: Step, p: Pair) {
    a.DoLock? && Pair(a.queue, a.id) == p && !Exists(s, a.queue, a.id)
  }

  /** The pair a step asks to delete: the one an UnLock names, or that of the event that expires. */
  function Target(s: Locks, a: Step): Option<Pair> {
    match a
    case DoLock(_, _, _) => None
    case DoUnLock(q, id) => Some(Pair(q, id))
    case Expire(cur) => if Due(s, cur) then Some(PairOf(s.chain[0])) else None
  }

  /** The step ends the lease of p: it is unlocked by name, or it expires. */
  predicate Releases(s: Locks, a: Step, p: Pair) {
    Target(s, a) == Some(p)
  }

  /** The step cuts the lease of p short: it asks to delete another pair, and p's entry is erased instead. */
  predicate Cuts(s: Locks, a: Step, p: Pair) {
    Target(s, a).Some? && Target(s, a) != Some(p)
         && Taken(s.pairs, Target(s, a).value.queue, Target(s, a).value.id) == Some(p)
  }

  /** One way or the other, the step ends the lease of p. */
  predicate Ends(s: Locks, a: Step, p: Pair) {
    Releases(s, a, p) || Cuts(s, a, p)
  }

  /** An UnLock names a locked pair, or one that no later-ordered queue's lock shadows. Every other step is safe. */
  ghost predicate Safe(s: Locks, a: Step) {
    a.DoUnLock? ==> Pair(a.queue, a.id) in s.pairs || !Shadowed(s.pairs, a.queue, a.id)
  }

  /** The state after the first n steps of a run that starts with no locks. */
  function After(tmout: int, run: seq<Step>, n: nat): Locks
    requires n <= |run|
  {
    if n == 0 then Locks([], []) else Next(After(tmout, run, n - 1), tmout, run[n - 1])
  }

  /** One step keeps the agreement of multimap and chain exactly if it is safe. */
  lemma StepAgreesExactly(s: Locks, tmout: int, a: Step)
    requires Agree(s, tmout)
    ensures Agree(Next(s, tmout, a), tmout) <==> Safe(s, a)
  {
    hide Agree, LockNext, DelNext;
    match a
    case DoLock(q, id, cur) => AgreeLock(s, tmout, q, id, cur);
    case DoUnLock(q, id) => DelAgreesExactly(s, tmout, q, id);
    case Expire(cur) => if Due(s, cur) { FireHeldHead(s, tmout); }
  }

  lemma EmptyAgrees(tmout: int)
    ensures Agree(Locks([], []), tmout)
  {
    assert PairsOf([]) == [];
  }

  /** The multimap and the chain agree at the start and after each of the first n steps. */
  ghost predicate AgreesThrough(tmout: int, run: seq<Step>, n: nat)
    requires n <= |run|
  {
    (n == 0 || AgreesThrough(tmout, run, n - 1)) && Agree(After(tmout, run, n), tmout)
  }

  /** Each of the first n steps is safe where it is taken. */
  ghost predicate SafeThrough(tmout: int, run: seq<Step>, n: nat)
    requires n <= |run|
  {
    n == 0 || (SafeThrough(tmout, run, n - 1) && Safe(After(tmout, run, n - 1), run[n - 1]))
  }

  /** Lock-index agreement over whole runs, in both directions: the multimap and the chain agree
      throughout the run if and only if every UnLock in it was safe. */
  lemma {:induction false} RunAgreesExactly(tmout: int, run: seq<Step>, n: nat)
    requires n <= |run|
    ensures AgreesThrough(tmout, run, n) <==> SafeThrough(tmout, run, n)
  {
    hide Agree, Next, Safe;
    if n == 0 {
      EmptyAgrees(tmout);
    } else {
      RunAgreesExactly(tmout, run, n - 1);
      if AgreesThrough(tmout, run, n - 1) {
        assert Agree(After(tmout, run, n - 1), tmout);
        StepAgreesExactly(After(tmout, run, n - 1), tmout, run[n - 1]);
      }
    }
  }

  lemma {:induction false} SafePrefix(tmout: int, run: seq<Step>, i: nat, n: nat)
    requires i <= n <= |run| && SafeThrough(tmout, run, n)
    ensures SafeThrough(tmout, run, i) && Agree(After(tmout, run, i), tmout)
    ensures i < n ==> Safe(After(tmout, run, i), run[i])
  {
    hide Agree, Next, Safe;
    if i < n {
      SafePrefix(tmout, run, i, n - 1);
    } else {
      RunAgreesExactly(tmout, run, n);
      assert AgreesThrough(tmout, run, n);
    }
  }

  /** When every lock is on one queue, every UnLock is safe, whatever it names. */
  lemma {:induction false} OneQueueIsSafe(tmout: int, run: seq<Step>, queue: string, n: nat)
    requires n <= |run|
    requires forall i :: 0 <= i < n && run[i].DoLock? ==> run[i].queue == queue
    ensures Agree(After(tmout, run, n), tmout)
    ensures forall p :: p in After(tmout, run, n).pairs ==> p.queue == queue
    ensures n < |run| ==> Safe(After(tmout, run, n), run[n])
  {
    if n == 0 {
      EmptyAgrees(tmout);
    } else {
      OneQueueIsSafe(tmout, run, queue, n - 1);
      var s, a := After(tmout, run, n - 1), run[n - 1];
      StepAgreesExactly(s, tmout, a);
      AgreeCovered(s, tmout);
      StepMembers(s, tmout, a);
    }
  }

  /** What one step does to the locked pairs, in any state that locks and deletes can lead to: it adds the
      pair it grants, and takes away the pair it releases, or else the one whose lease it cuts short. */
  lemma StepMembers(s: Locks, tmout: int, a: Step)
    requires Covered(s, tmout)
    ensures forall p :: p in Next(s, tmout, a).pairs <==> Grants(s, a, p) || (p in s.pairs && !Ends(s, a, p))
  {
    forall p
      ensures p in Next(s, tmout, a).pairs <==> Grants(s, a, p) || (p in s.pairs && !Ends(s, a, p))
    {
      StepMember(s, tmout, a, p);
    }
  }

  lemma StepMember(s: Locks, tmout: int, a: Step, p: Pair)
    requires Covered(s, tmout)
    ensures p in Next(s, tmout, a).pairs <==> Grants(s, a, p) || (p in s.pairs && !Ends(s, a, p))
  {
    hide LockNext, DelNext, Taken;
    if a.DoLock? {
      var t := Next(s, tmout, a);
      CoveredLock(s, tmout, a.queue, a.id, a.cur);
      assert p in s.pairs <==> p in multiset(s.pairs);
      assert p in t.pairs <==> p in multiset(t.pairs);
    } else if Target(s, a).Some? {
      var d := Target(s, a).value;
      DelTakes(s, tmout, d.queue, d.id);
      TakenExactly(s.pairs, d.queue, d.id);
    }
  }

  /** No step at all leaves a locked pair without an event. */
  lemma StepCovers(s: Locks, tmout: int, a: Step)
    requires Covered(s, tmout)
    ensures Covered(Next(s, tmout, a), tmout)
  {
    hide Covered, LockNext, DelNext;
    match a
    case DoLock(q, id, cur) => CoveredLock(s, tmout, q, id, cur);
    case DoUnLock(q, id) => CoveredDel(s, tmout, q, id);
    case Expire(cur) => if Due(s, cur) { CoveredDel(s, tmout, s.chain[0].queue, s.chain[0].id); }
  }

  /** In every run, whatever its unlocks name: the chain is in deadline order, all its events have the default
      timeout, the pairs are distinct and in key order, and each has an event of its own. */
  lemma {:induction false} RunCovered(tmout: int, run: seq<Step>, n: nat)
    requires n <= |run|
    ensures Covered(After(tmout, run, n), tmout)
  {
    hide Covered, Next;
    if n == 0 {
      EmptyAgrees(tmout);
      AgreeCovered(Locks([], []), tmout);
    } else {
      RunCovered(tmout, run, n - 1);
      StepCovers(After(tmout, run, n - 1), tmout, run[n - 1]);
    }
  }

  /** Leases end only by their own unlock or expiry in this step. */
  ghost predicate KeepsLeases(s: Locks, tmout: int, a: Step) {
    forall p :: p in s.pairs && !Releases(s, a, p) ==> p in Next(s, tmout, a).pairs
  }

  /** Exactly when a step cuts no lease short, in any state: unless it asks to delete a free pair that the
      lock of a later-ordered queue shadows. */
  lemma StepKeepsLeasesExactly(s: Locks, tmout: int, a: Step)
    requires Covered(s, tmout)
    ensures KeepsLeases(s, tmout, a)
       <==> (Target(s, a).Some? ==>
               Target(s, a).value in s.pairs || !Shadowed(s.pairs, Target(s, a).value.queue, Target(s, a).value.id))
  {
    hide Next, Covered, Shadowed, Taken;
    StepMembers(s, tmout, a);
    assert PairsOk(s.pairs) by { PairsCovered(s, tmout); }
    if Target(s, a).Some? {
      var d := Target(s, a).value;
      TakenExactly(s.pairs, d.queue, d.id);
      if Taken(s.pairs, d.queue, d.id).Some? {
        var p := Taken(s.pairs, d.queue, d.id).value;
        assert d !in s.pairs ==> Cuts(s, a, p) && !Releases(s, a, p) && !Grants(s, a, p);
      }
    }
  }

  lemma PairsCovered(s: Locks, tmout: int)
    requires Covered(s, tmout)
    ensures PairsOk(s.pairs)
  {
  }

  /** While multimap and chain agree, that is exactly when the step is safe. */
  lemma SafeKeepsLeasesExactly(s: Locks, tmout: int, a: Step)
    requires Agree(s, tmout)
    ensures KeepsLeases(s, tmout, a) <==> Safe(s, a)
  {
    hide KeepsLeases, Agree, Shadowed;
    AgreeCovered(s, tmout);
    StepKeepsLeasesExactly(s, tmout, a);
    if a.Expire? && Due(s, a.cur) { FireHeldHead(s, tmout); }
  }

  /** None of the first n steps cuts a lease short. */
  ghost predicate KeepsLeasesThrough(tmout: int, run: seq<Step>, n: nat)
    requires n <= |run|
  {
    n == 0 || (KeepsLeasesThrough(tmout, run, n - 1) && KeepsLeases(After(tmout, run, n - 1), tmout, run[n - 1]))
  }

  /** Exactly when leases end only by their own unlock or expiry throughout a run: when every unlock in it
      names a locked pair, or one that nothing shadows. */
  lemma {:induction false} RunKeepsLeasesExactly(tmout: int, run: seq<Step>, n: nat)
    requires n <= |run|
    ensures KeepsLeasesThrough(tmout, run, n) <==> SafeThrough(tmout, run, n)
  {
    hide Agree, Next, Safe, KeepsLeases;
    if n > 0 {
      RunKeepsLeasesExactly(tmout, run, n - 1);
      if SafeThrough(tmout, run, n - 1) {
        SafePrefix(tmout, run, n - 1, n - 1);
        SafeKeepsLeasesExactly(After(tmout, run, n - 1), tmout, run[n - 1]);
      }
    }
  }

  /** In any run, a pair granted at step i stays locked until some step releases it or cuts its lease short. */
  lemma {:induction false} HeldUntilEnded(tmout: int, run: seq<Step>, i: nat, j: nat, p: Pair)
    requires i < j <= |run| && Grants(After(tmout, run, i), run[i], p)
    requires forall k :: i < k < j ==> !Ends(After(tmout, run, k), run[k], p)
    ensures p in After(tmout, run, j).pairs
  {
    hide Covered, Next, Grants, Releases, Cuts;
    RunCovered(tmout, run, j - 1);
    if j > i + 1 { HeldUntilEnded(tmout, run, i, j - 1, p); }
    StepMember(After(tmout, run, j - 1), tmout, run[j - 1], p);
  }

  /** Mutual exclusion over all runs: between two grants of one pair some step releases it or cuts its lease short. */
  lemma {:induction false} GrantedTwiceEndedBetween(tmout: int, run: seq<Step>, i: nat, j: nat, p: Pair)
    requires i < j < |run|
    requires Grants(After(tmout, run, i), run[i], p) && Grants(After(tmout, run, j), run[j], p)
    ensures exists k :: i < k < j && Ends(After(tmout, run, k), run[k], p)
  {
    hide Next, Releases, Cuts;
    RunCovered(tmout, run, j);
    ExistsExactly(After(tmout, run, j).pairs, p.queue, p.id);
    if forall k :: i < k < j ==> !Ends(After(tmout, run, k), run[k], p) {
      HeldUntilEnded(tmout, run, i, j, p);
    }
  }

  /** And in a run whose unlocks are safe, between two grants of one pair there is a release of it. */
  lemma GrantedTwiceReleasedBetween(tmout: int, run: seq<Step>, i: nat, j: nat, p: Pair)
    requires i < j < |run| && SafeThrough(tmout, run, j)
    requires Grants(After(tmout, run, i), run[i], p) && Grants(After(tmout, run, j), run[j], p)
    ensures exists k :: i < k < j && Releases(After(tmout, run, k), run[k], p)
  {
    hide Next, Releases, Cuts, Safe, Agree, Grants;
    GrantedTwiceEndedBetween(tmout, run, i, j, p);
    var k :| i < k < j && Ends(After(tmout, run, k), run[k], p);
    SafePrefix(tmout, run, k, j);
    SafeCutsNothing(After(tmout, run, k), tmout, run[k], p);
  }

  lemma SafeCutsNothing(s: Locks, tmout: int, a: Step, p: Pair)
    requires Agree(s, tmout) && Safe(s, a)
    ensures !Cuts(s, a, p)
  {
    hide Agree, Shadowed, Taken;
    AgreeCovered(s, tmout);
    PairsCovered(s, tmout);
    if a.Expire? && Due(s, a.cur) { FireHeldHead(s, tmout); }
    if Target(s, a).Some? { TakenExactly(s.pairs, Target(s, a).value.queue, Target(s, a).value.id); }
  }

  /** Without the hypothesis the lock service gives one message to two consumers: an UnLock of the
      free pair ("a", 2) silently drops the lock on ("b", 2), which is then granted again. */
  lemma UnsafeUnlockGrantsTwice(cur: int)
    ensures var run := [DoLock("a", 1, cur), DoLock("b", 2, cur), DoUnLock("a", 2), DoLock("b", 2, cur)];
            && Grants(After(5000, run, 1), run[1], Pair("b", 2))
            && Grants(After(5000, run, 3), run[3], Pair("b", 2))
            && !Releases(After(5000, run, 2), run[2], Pair("b", 2))
            && !Safe(After(5000, run, 2), run[2])
  {
    var run := [DoLock("a", 1, cur), DoLock("b", 2, cur), DoUnLock("a", 2), DoLock("b", 2, cur)];
    assert After(5000, run, 0) == Locks([], []);
    var s1 := After(5000, run, 1);
    assert Find([], "a") == 0 && UpperBound([], "a") == 0;
    assert s1.pairs == [Pair("a", 1)];
    assert Find(s1.pairs, "b") == 1 && UpperBound(s1.pairs, "b") == 1;
    var s2 := After(5000, run, 2);
    assert s2.pairs == [Pair("a", 1), Pair("b", 2)];
    assert Find(s2.pairs, "a") == 0 && Scan(s2.pairs, 0, 2) == Scan(s2.pairs, 1, 2) == 1;
    assert s2.pairs[0].queue == "a" && s2.pairs[1].id == 2;
    var s3 := After(5000, run, 3);
    assert s3.pairs == [Pair("a", 1)];
  }
}
