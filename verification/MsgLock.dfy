/** The master's lease locks (SQSMaster/src/MsgLock.cpp): a multimap of locked
    (queue, id) pairs, and one timeout event a pair on the event chain. */
module MsgLock {
  import opened Basics
  import opened StringOrder
  import opened EventChain

  datatype Pair = Pair(queue: string, id: int)

  /** A multimap iterates its entries in key order. */
  ghost predicate Ordered(m: seq<Pair>) {
    forall i, j :: 0 <= i < j < |m| ==> !Less(m[j].queue, m[i].queue)
  }

  /** multimap::find : the first entry of the key, or the end. */
  function Find(m: seq<Pair>, q: string): (k: nat)
    ensures k <= |m|
    ensures forall i :: 0 <= i < k ==> m[i].queue != q
    ensures k < |m| ==> m[k].queue == q
  {
    if m == [] || m[0].queue == q then 0 else 1 + Find(m[1..], q)
  }

  /** multimap::insert : after every entry of a key not greater. */
  function UpperBound(m: seq<Pair>, q: string): (k: nat)
    ensures k <= |m|
    ensures forall i :: 0 <= i < k ==> !Less(q, m[i].queue)
    ensures k < |m| ==> Less(q, m[k].queue)
  {
    if m == [] || Less(q, m[0].queue) then 0 else 1 + UpperBound(m[1..], q)
  }

  /** The loop of IsExist and Del: from an iterator to the end, looking at the id only. */
  function Scan(m: seq<Pair>, from: nat, id: int): (k: nat)
    requires from <= |m|
    ensures from <= k <= |m|
    ensures forall i :: from <= i < k ==> m[i].id != id
    ensures k < |m| ==> m[k].id == id
    decreases |m| - from
  {
    if from == |m| || m[from].id == id then from else Scan(m, from + 1, id)
  }

  function Located(m: seq<Pair>, q: string, id: int): (k: nat)
    ensures k <= |m|
  {
    Scan(m, Find(m, q), id)
  }

  /** Some lock held on an id of a later-ordered queue hides behind the locks of q. */
  ghost predicate Shadowed(m: seq<Pair>, q: string, id: int) {
    && (exists i :: 0 <= i < |m| && m[i].queue == q)
    && (exists j :: 0 <= j < |m| && m[j].id == id && Less(q, m[j].queue))
  }

  /** Exactly when IsExist answers true: the pair is locked, or its queue has some lock and a
      later-ordered queue has a lock on the same id. */
  lemma ExistsExactly(m: seq<Pair>, q: string, id: int)
    requires Ordered(m)
    ensures Located(m, q, id) < |m| <==> Pair(q, id) in m || Shadowed(m, q, id)
  {
    var f, k := Find(m, q), Located(m, q, id);
    if k < |m| {
      Total(m[k].queue, q);
      assert m[f].queue == q;
      assert m[k] == Pair(m[k].queue, id);
    }
    if Pair(q, id) in m {
      var h :| 0 <= h < |m| && m[h] == Pair(q, id);
    } else if Shadowed(m, q, id) {
      var j :| 0 <= j < |m| && m[j].id == id && Less(q, m[j].queue);
      assert m[f].queue == q;
      assert f <= j;
    }
  }

  /** Looking up a pair that is locked finds that pair and no other. */
  lemma LocatedHeld(m: seq<Pair>, q: string, id: int)
    requires Ordered(m) && Pair(q, id) in m
    ensures Located(m, q, id) < |m| && m[Located(m, q, id)] == Pair(q, id)
  {
    var h :| 0 <= h < |m| && m[h] == Pair(q, id);
    var f, k := Find(m, q), Located(m, q, id);
    assert f <= k <= h;
    Total(m[k].queue, q);
    if k < h { assert !Less(m[h].queue, m[k].queue); }
    if f < k { assert !Less(m[k].queue, m[f].queue); }
  }

  lemma OrderedInsert(m: seq<Pair>, p: Pair)
    requires Ordered(m)
    ensures Ordered(InsertedAt(m, UpperBound(m, p.queue), p))
  {
    var k := UpperBound(m, p.queue);
    forall j | k <= j < |m|
      ensures !Less(m[j].queue, p.queue)
    {
      NotBelow(m[j].queue, m[k].queue, p.queue);
    }
  }

  lemma NotBelow(a: string, b: string, c: string)
    requires (a == b || !Less(a, b)) && Less(c, b)
    ensures !Less(a, c)
  {
    if Less(a, c) {
      Transitive(a, c, b);
      Irreflexive(a);
    }
  }

  lemma OrderedRemove(m: seq<Pair>, k: nat)
    requires Ordered(m) && k < |m|
    ensures Ordered(RemoveAt(m, k))
  {
    var r := RemoveAt(m, k);
    forall i, j | 0 <= i < j < |r|
      ensures !Less(r[j].queue, r[i].queue)
    {
      assert r[i] == m[if i < k then i else i + 1] && r[j] == m[if j < k then j else j + 1];
    }
  }

  /** The state behind a MsgLock: its chain of events and its multimap. */
  datatype Locks = Locks(chain: seq<Ev>, pairs: seq<Pair>)

  function PairOf(e: Ev): Pair { Pair(e.queue, e.id) }

  predicate Exists(s: Locks, q: string, id: int) {
    Located(s.pairs, q, id) < |s.pairs|
  }

  /** MsgLock::Lock */
  function LockNext(s: Locks, tmout: int, q: string, id: int, cur: int): Locks {
    if Exists(s, q, id) then s
    else Locks(Scheduled(s.chain, Ev(q, id, tmout, 1000 * cur)),
               InsertedAt(s.pairs, UpperBound(s.pairs, q), Pair(q, id)))
  }

  /** MsgLock::Del, which UnLock and ReleaseLock call. */
  function DelNext(s: Locks, tmout: int, q: string, id: int): Locks {
    var k := Located(s.pairs, q, id);
    Locks(Cancelled(s.chain, q, id, tmout), if k < |s.pairs| then RemoveAt(s.pairs, k) else s.pairs)
  }

  function PairsOf(chain: seq<Ev>): (ps: seq<Pair>)
    ensures |ps| == |chain|
    ensures forall i :: 0 <= i < |ps| ==> ps[i] == PairOf(chain[i])
  {
    seq(|chain|, i requires 0 <= i < |chain| => PairOf(chain[i]))
  }

  /** The chain and the multimap agree: the locked pairs are distinct and are exactly the pairs of
      the events, one event each, in deadline order, all with the default timeout. */
  ghost predicate Agree(s: Locks, tmout: int) {
    && ChainOk(s.chain, tmout) && Ordered(s.pairs)
    && AtMostOnce(multiset(s.pairs))
    && multiset(s.pairs) == multiset(PairsOf(s.chain))
  }

  ghost predicate ChainOk(chain: seq<Ev>, tmout: int) {
    Sorted(chain) && forall i :: 0 <= i < |chain| ==> chain[i].sched == tmout
  }

  lemma AgreeLock(s: Locks, tmout: int, q: string, id: int, cur: int)
    requires Agree(s, tmout)
    ensures var t := LockNext(s, tmout, q, id, cur);
            && Agree(t, tmout)
            && (if Exists(s, q, id) then t == s
                else Pair(q, id) !in s.pairs && multiset(t.pairs) == multiset(s.pairs) + multiset{Pair(q, id)})
  {
    if !Exists(s, q, id) {
      var e, p := Ev(q, id, tmout, 1000 * cur), Pair(q, id);
      var t := LockNext(s, tmout, q, id, cur);
      ExistsExactly(s.pairs, q, id);
      InsertSorted(s.chain, e);
      OrderedInsert(s.pairs, p);
      InsertedAtMultiset(s.pairs, UpperBound(s.pairs, q), p);
      var k := Slot(s.chain, e.Deadline());
      InsertedAtMultiset(PairsOf(s.chain), k, p);
      assert PairsOf(t.chain) == InsertedAt(PairsOf(s.chain), k, p);
      assert p !in multiset(s.pairs);
      AtMostOnceLess(multiset(s.pairs), p);
    }
  }

  /** The only event of a locked pair is the one Cancel finds. */
  lemma MatchHeld(s: Locks, tmout: int, q: string, id: int)
    requires Agree(s, tmout)
    ensures var k := FirstMatch(s.chain, q, id, tmout);
            if Pair(q, id) in s.pairs then k < |s.chain| && PairOf(s.chain[k]) == Pair(q, id) else k == |s.chain|
  {
    var k, p := FirstMatch(s.chain, q, id, tmout), Pair(q, id);
    assert p in s.pairs <==> p in multiset(s.pairs);
    assert p in PairsOf(s.chain) <==> p in multiset(PairsOf(s.chain));
    if p in s.pairs {
      var i :| 0 <= i < |s.chain| && PairsOf(s.chain)[i] == p;
      assert s.chain[i].Matches(q, id, tmout);
    } else {
      assert forall i :: 0 <= i < |s.chain| ==> PairsOf(s.chain)[i] != p;
    }
  }

  /** Deleting a locked pair removes that pair and its event, and nothing else. */
  lemma {:induction false} DelHeld(s: Locks, tmout: int, q: string, id: int)
    requires Agree(s, tmout) && Pair(q, id) in s.pairs
    ensures var t := DelNext(s, tmout, q, id);
            && Agree(t, tmout)
            && multiset(s.pairs) == multiset(t.pairs) + multiset{Pair(q, id)}
            && t.chain == RemoveAt(s.chain, FirstMatch(s.chain, q, id, tmout))
  {
    var t, p := DelNext(s, tmout, q, id), Pair(q, id);
    LocatedHeld(s.pairs, q, id);
    RemoveAtMultiset(s.pairs, Located(s.pairs, q, id));
    OrderedRemove(s.pairs, Located(s.pairs, q, id));
    AtMostOnceLess(multiset(t.pairs), p);
    MatchHeld(s, tmout, q, id);
    RemoveSorted(s.chain, q, id, tmout);
    var k := FirstMatch(s.chain, q, id, tmout);
    RemoveAtMultiset(PairsOf(s.chain), k);
    assert PairsOf(t.chain) == RemoveAt(PairsOf(s.chain), k);
    CancelOne(multiset(t.pairs), multiset(PairsOf(t.chain)), p);
  }

  /** Exactly when Del keeps the multimap and the chain in agreement. Otherwise it has erased a
      lock of a later-ordered queue whose event stays behind. */
  lemma DelAgreesExactly(s: Locks, tmout: int, q: string, id: int)
    requires Agree(s, tmout)
    ensures Agree(DelNext(s, tmout, q, id), tmout) <==> Pair(q, id) in s.pairs || !Shadowed(s.pairs, q, id)
    ensures Pair(q, id) !in s.pairs && !Shadowed(s.pairs, q, id) ==> DelNext(s, tmout, q, id) == s
  {
    var t, k := DelNext(s, tmout, q, id), Located(s.pairs, q, id);
    ExistsExactly(s.pairs, q, id);
    MatchHeld(s, tmout, q, id);
    if Pair(q, id) in s.pairs {
      DelHeld(s, tmout, q, id);
    } else if k < |s.pairs| {
      RemoveAtMultiset(s.pairs, k);
      assert t.chain == s.chain && |multiset(t.pairs)| < |multiset(s.pairs)|;
    }
  }

  /** What the multimap alone keeps. */
  ghost predicate PairsOk(m: seq<Pair>) {
    Ordered(m) && AtMostOnce(multiset(m))
  }

  /** What is left of the agreement after any deletes at all: every locked pair still has an event,
      though an event may have lost its pair. */
  ghost predicate Covered(s: Locks, tmout: int) {
    ChainOk(s.chain, tmout) && PairsOk(s.pairs) && multiset(s.pairs) <= multiset(PairsOf(s.chain))
  }

  /** The pair whose entry Del erases, if it erases one. */
  function Taken(m: seq<Pair>, q: string, id: int): Option<Pair> {
    if Located(m, q, id) < |m| then Some(m[Located(m, q, id)]) else None
  }

  function AtMost(p: Option<Pair>): multiset<Pair> {
    if p.Some? then multiset{p.value} else multiset{}
  }

  /** Exactly which entry Del erases: the pair it names, if that is locked; else one of the same id and a
      later-ordered queue, if such a lock shadows it; else none. */
  lemma TakenExactly(m: seq<Pair>, q: string, id: int)
    requires Ordered(m)
    ensures Pair(q, id) in m ==> Taken(m, q, id) == Some(Pair(q, id))
    ensures Pair(q, id) !in m ==> (Taken(m, q, id).Some? <==> Shadowed(m, q, id))
    ensures Taken(m, q, id).Some? ==> Taken(m, q, id).value in m && Taken(m, q, id).value.id == id
  {
    ExistsExactly(m, q, id);
    if Pair(q, id) in m { LocatedHeld(m, q, id); }
  }

  /** Del takes the entry it has located out of the multimap, and no other. */
  lemma DelTakes(s: Locks, tmout: int, q: string, id: int)
    requires PairsOk(s.pairs)
    ensures var t := DelNext(s, tmout, q, id);
            && PairsOk(t.pairs)
            && multiset(s.pairs) == multiset(t.pairs) + AtMost(Taken(s.pairs, q, id))
            && forall p :: p in t.pairs <==> p in s.pairs && Taken(s.pairs, q, id) != Some(p)
  {
    var k := Located(s.pairs, q, id);
    AtMostOnceNoDup(s.pairs);
    if k < |s.pairs| {
      RemoveAtMultiset(s.pairs, k);
      RemoveAtMembers(s.pairs, k);
      OrderedRemove(s.pairs, k);
      AtMostOnceLess(multiset(RemoveAt(s.pairs, k)), s.pairs[k]);
    }
  }

  /** Del takes at most one event off the chain, one of the pair it names. */
  lemma CancelTakes(chain: seq<Ev>, tmout: int, q: string, id: int)
    requires ChainOk(chain, tmout)
    ensures var u, p := Cancelled(chain, q, id, tmout), Pair(q, id);
            && ChainOk(u, tmout)
            && (p in PairsOf(chain) ==> multiset(PairsOf(chain)) == multiset(PairsOf(u)) + multiset{p})
            && (p !in PairsOf(chain) ==> u == chain)
  {
    var k, u := FirstMatch(chain, q, id, tmout), Cancelled(chain, q, id, tmout);
    RemoveSorted(chain, q, id, tmout);
    if Pair(q, id) in PairsOf(chain) {
      var i :| 0 <= i < |chain| && PairsOf(chain)[i] == Pair(q, id);
      assert chain[i].Matches(q, id, tmout);
      RemoveAtMultiset(PairsOf(chain), k);
      assert PairsOf(u) == RemoveAt(PairsOf(chain), k);
    } else {
      assert forall i :: 0 <= i < |chain| ==> PairsOf(chain)[i] != Pair(q, id);
    }
  }

  /** Any delete keeps every locked pair covered by an event, whatever it names. */
  lemma CoveredDel(s: Locks, tmout: int, q: string, id: int)
    requires Covered(s, tmout)
    ensures Covered(DelNext(s, tmout, q, id), tmout)
  {
    var t, p := DelNext(s, tmout, q, id), Pair(q, id);
    DelTakes(s, tmout, q, id);
    CancelTakes(s.chain, tmout, q, id);
    TakenExactly(s.pairs, q, id);
    assert p in s.pairs <==> p in multiset(s.pairs);
    assert p in PairsOf(s.chain) <==> p in multiset(PairsOf(s.chain));
    forall x
      ensures multiset(t.pairs)[x] <= multiset(PairsOf(t.chain))[x]
    {
      assert multiset(s.pairs)[x] <= multiset(PairsOf(s.chain))[x] && multiset(t.pairs)[x] <= multiset(s.pairs)[x];
      assert p in s.pairs ==> multiset(s.pairs)[p] == multiset(t.pairs)[p] + 1;
    }
  }

  /** And so does any lock. A granted one adds exactly its pair. */
  lemma CoveredLock(s: Locks, tmout: int, q: string, id: int, cur: int)
    requires Covered(s, tmout)
    ensures var t := LockNext(s, tmout, q, id, cur);
            && Covered(t, tmout)
            && (if Exists(s, q, id) then t == s else multiset(t.pairs) == multiset(s.pairs) + multiset{Pair(q, id)})
  {
    if !Exists(s, q, id) {
      var e, p := Ev(q, id, tmout, 1000 * cur), Pair(q, id);
      var t, k := LockNext(s, tmout, q, id, cur), Slot(s.chain, e.Deadline());
      ExistsExactly(s.pairs, q, id);
      InsertSorted(s.chain, e);
      OrderedInsert(s.pairs, p);
      InsertedAtMultiset(s.pairs, UpperBound(s.pairs, q), p);
      InsertedAtMultiset(PairsOf(s.chain), k, p);
      assert PairsOf(t.chain) == InsertedAt(PairsOf(s.chain), k, p);
      assert p !in multiset(s.pairs);
      AtMostOnceLess(multiset(s.pairs), p);
    }
  }

  lemma AgreeCovered(s: Locks, tmout: int)
    requires Agree(s, tmout)
    ensures Covered(s, tmout)
  {
  }

  /** The documentation of MsgLock promises that Lock fails only for a locked message. Once message 1
      of queue "a" and message 2 of queue "b" are locked, Lock refuses message 2 of "a", which is free. */
  lemma FreeMessageRefused(cur: int)
    ensures var s := LockNext(LockNext(Locks([], []), 5000, "a", 1, cur), 5000, "b", 2, cur);
            Pair("a", 2) !in s.pairs && Exists(s, "a", 2)
  {
    var s1 := LockNext(Locks([], []), 5000, "a", 1, cur);
    assert s1.pairs == [Pair("a", 1)];
    assert Find(s1.pairs, "b") == 1 && UpperBound(s1.pairs, "b") == 1;
    var s2 := LockNext(s1, 5000, "b", 2, cur);
    assert s2.pairs == [Pair("a", 1), Pair("b", 2)];
    assert Find(s2.pairs, "a") == 0 && Scan(s2.pairs, 0, 2) == Scan(s2.pairs, 1, 2);
  }

  /** ReleaseLock cancels the very event it was called for, the head, whatever has become of the multimap. */
  lemma FireHead(s: Locks, tmout: int)
    requires ChainOk(s.chain, tmout) && s.chain != []
    ensures var t := DelNext(s, tmout, s.chain[0].queue, s.chain[0].id);
            t.chain == s.chain[1..] && ChainOk(t.chain, tmout)
  {
    assert FirstMatch(s.chain, s.chain[0].queue, s.chain[0].id, tmout) == 0;
    assert RemoveAt(s.chain, 0) == s.chain[1..];
  }

  /** While multimap and chain agree, it also takes the head's own pair out of the multimap. */
  lemma FireHeldHead(s: Locks, tmout: int)
    requires Agree(s, tmout) && s.chain != []
    ensures PairOf(s.chain[0]) in s.pairs
    ensures var t := DelNext(s, tmout, s.chain[0].queue, s.chain[0].id);
            Agree(t, tmout) && multiset(s.pairs) == multiset(t.pairs) + multiset{PairOf(s.chain[0])}
  {
    assert PairsOf(s.chain)[0] in multiset(PairsOf(s.chain));
    assert PairOf(s.chain[0]) in multiset(s.pairs);
    DelHeld(s, tmout, s.chain[0].queue, s.chain[0].id);
  }

  /** The do loop of EventChain::Run, whose callback is ReleaseLock: fire the head, read the clock
      again, and go on while the new head is due. The k-th comparison is made at clock(k). */
  ghost function Drain(s: Locks, tmout: int, clock: nat -> int, k: nat): (t: Locks)
    requires ChainOk(s.chain, tmout)
    ensures ChainOk(t.chain, tmout)
    decreases |s.chain|
  {
    if s.chain == [] || 1000 * clock(k) < s.chain[0].Deadline() then s
    else
      FireHead(s, tmout);
      Drain(DelNext(s, tmout, s.chain[0].queue, s.chain[0].id), tmout, clock, k + 1)
  }

  /** How many events a drain fires. */
  ghost function Fired(chain: seq<Ev>, clock: nat -> int, k: nat): (n: nat)
    ensures n <= |chain|
  {
    if chain == [] || 1000 * clock(k) < chain[0].Deadline() then 0 else 1 + Fired(chain[1..], clock, k + 1)
  }

  /** Every event fired was due when the clock was read for it, and the first one left was not. */
  lemma {:induction false} FiredExactly(chain: seq<Ev>, clock: nat -> int, k: nat, i: nat)
    requires i < |chain| && i <= Fired(chain, clock, k)
    ensures chain[i].Deadline() <= 1000 * clock(k + i) <==> i < Fired(chain, clock, k)
  {
    if i > 0 {
      FiredExactly(chain[1..], clock, k + 1, i - 1);
      assert chain[1..][i - 1] == chain[i] && k + 1 + (i - 1) == k + i;
    }
  }

  /** The drain fires a prefix of the chain, in order, and leaves the rest as it was. */
  lemma {:induction false} DrainExactly(s: Locks, tmout: int, clock: nat -> int, k: nat)
    requires ChainOk(s.chain, tmout)
    ensures Drain(s, tmout, clock, k).chain == s.chain[Fired(s.chain, clock, k)..]
    decreases |s.chain|
  {
    hide DelNext, ChainOk;
    if s.chain != [] && s.chain[0].Deadline() <= 1000 * clock(k) {
      FireHead(s, tmout);
      var u := DelNext(s, tmout, s.chain[0].queue, s.chain[0].id);
      assert Drain(s, tmout, clock, k) == Drain(u, tmout, clock, k + 1);
      DrainExactly(u, tmout, clock, k + 1);
      var m := Fired(u.chain, clock, k + 1);
      assert Fired(s.chain, clock, k) == m + 1;
      assert s.chain[1..][m..] == s.chain[m + 1..];
    }
  }

  /** A drain keeps what the state before it had. */
  lemma {:induction false} DrainKeeps(s: Locks, tmout: int, clock: nat -> int, k: nat)
    requires Covered(s, tmout)
    ensures Covered(Drain(s, tmout, clock, k), tmout)
    ensures Agree(s, tmout) ==> Agree(Drain(s, tmout, clock, k), tmout)
    decreases |s.chain|
  {
    hide DelNext, Agree, PairsOk;
    if s.chain != [] && s.chain[0].Deadline() <= 1000 * clock(k) {
      FireHead(s, tmout);
      CoveredDel(s, tmout, s.chain[0].queue, s.chain[0].id);
      if Agree(s, tmout) { FireHeldHead(s, tmout); }
      DrainKeeps(DelNext(s, tmout, s.chain[0].queue, s.chain[0].id), tmout, clock, k + 1);
    }
  }

  /** A chain cut at the first event that is due later has all later events behind the cut. */
  lemma LaterBehindCut(chain: seq<Ev>, n: nat, now: int, i: nat)
    requires Sorted(chain) && i < |chain| && n <= |chain|
    requires n < |chain| ==> 1000 * now < chain[n].Deadline()
    requires i < n ==> chain[i].Deadline() <= 1000 * now
    ensures chain[i] in chain[n..] <==> 1000 * now < chain[i].Deadline()
  {
    if n <= i {
      assert chain[n..][i - n] == chain[i];
    } else {
      assert forall j :: n <= j < |chain| ==> 1000 * now < chain[j].Deadline();
    }
  }

  /** At a fixed clock reading the drain leaves exactly the events with a later deadline. */
  lemma DrainAtFixedClock(s: Locks, tmout: int, now: int, i: nat)
    requires ChainOk(s.chain, tmout) && i < |s.chain|
    ensures s.chain[i] in Drain(s, tmout, _ => now, 0).chain <==> 1000 * now < s.chain[i].Deadline()
  {
    var clock := _ => now;
    var n := Fired(s.chain, clock, 0);
    assert Sorted(s.chain);
    hide Drain, Fired, ChainOk, Sorted;
    DrainExactly(s, tmout, clock, 0);
    FiredExactly(s.chain, clock, 0, if i < n then i else n);
    if n < |s.chain| { FiredExactly(s.chain, clock, 0, n); }
    LaterBehindCut(s.chain, n, now, i);
  }

  lemma CoveredHasEvent(s: Locks, tmout: int, p: Pair) returns (j: nat)
    requires Covered(s, tmout) && p in s.pairs
    ensures j < |s.chain| && PairOf(s.chain[j]) == p
  {
    assert p in multiset(s.pairs) && p in multiset(PairsOf(s.chain));
    j :| 0 <= j < |s.chain| && PairsOf(s.chain)[j] == p;
  }

  /** And every lock it leaves has an event that is due later, in whatever state the multimap was. */
  lemma DrainLeavesLater(s: Locks, tmout: int, now: int, p: Pair)
    requires Covered(s, tmout) && p in Drain(s, tmout, _ => now, 0).pairs
    ensures exists e :: e in Drain(s, tmout, _ => now, 0).chain && PairOf(e) == p && 1000 * now < e.Deadline()
  {
    assert ChainOk(s.chain, tmout);
    hide Drain, Fired, ChainOk, Covered;
    var clock, t := _ => now, Drain(s, tmout, _ => now, 0);
    DrainKeeps(s, tmout, clock, 0);
    DrainExactly(s, tmout, clock, 0);
    var j := CoveredHasEvent(t, tmout, p);
    var n := Fired(s.chain, clock, 0);
    assert t.chain[j] == s.chain[n + j] && t.chain[j] in t.chain;
    DrainAtFixedClock(s, tmout, now, n + j);
  }

  /** While multimap and chain agree, the drain unlocks exactly the locks that are due. */
  lemma DrainUnlocksDue(s: Locks, tmout: int, now: int, i: nat)
    requires Agree(s, tmout) && i < |s.chain|
    ensures PairOf(s.chain[i]) in Drain(s, tmout, _ => now, 0).pairs <==> 1000 * now < s.chain[i].Deadline()
  {
    var clock, t := _ => now, Drain(s, tmout, _ => now, 0);
    var n := Fired(s.chain, clock, 0);
    AgreeCovered(s, tmout);
    DrainKeeps(s, tmout, clock, 0);
    DrainExactly(s, tmout, clock, 0);
    FiredExactly(s.chain, clock, 0, if i < n then i else n);
    LockedHasEvent(t, tmout, PairOf(s.chain[i]));
    AtMostOnceNoDup(PairsOf(s.chain));
    if n <= i {
      assert t.chain[i - n] == s.chain[i];
    } else {
      assert forall j :: n <= j < |s.chain| ==> PairsOf(s.chain)[j] != PairsOf(s.chain)[i];
    }
  }

  lemma LockedHasEvent(s: Locks, tmout: int, p: Pair)
    requires Agree(s, tmout)
    ensures p in s.pairs <==> exists e :: e in s.chain && PairOf(e) == p
  {
    assert p in s.pairs <==> p in multiset(s.pairs);
    assert p in PairsOf(s.chain) <==> p in multiset(PairsOf(s.chain));
    if e :| e in s.chain && PairOf(e) == p {
      var i :| 0 <= i < |s.chain| && s.chain[i] == e;
      assert PairsOf(s.chain)[i] == p;
    }
  }

  class MsgLock {
    var mDatas: seq<Pair>
    const defaultTmout: int
    const chain: EventChain

    ghost predicate Valid()
      reads this, chain, chain.nodes
    {
      chain.Valid()
    }

    ghost function State(): Locks
      reads this, chain
    {
      Locks(chain.contents, mDatas)
    }

    constructor (tmout: int)
      ensures Valid() && State() == Locks([], []) && defaultTmout == tmout
      ensures fresh(chain) && chain.nodes == []
    {
      mDatas, defaultTmout := [], tmout;
      chain := new EventChain();
      new;
      assert |chain.contents| == 0;
    }

    /** MsgLock::IsExist */
    method IsExist(queueName: string, msgId: int) returns (found: bool)
      ensures found <==> Exists(State(), queueName, msgId)
    {
      var iter := Find(mDatas, queueName);
      while iter != |mDatas|
        invariant Find(mDatas, queueName) <= iter <= |mDatas|
        invariant Located(mDatas, queueName, msgId) == Scan(mDatas, iter, msgId)
      {
        if mDatas[iter].id == msgId {
          return true;
        }
        iter := iter + 1;
      }
      return false;
    }

    /** MsgLock::Lock, with cur the reading of time() that Schedule takes. */
    method Lock(queueName: string, msgId: int, cur: int) returns (res: bool)
      requires Valid()
      modifies this, chain, chain.Nodes()
      ensures Valid()
      ensures res <==> !Exists(old(State()), queueName, msgId)
      ensures State() == LockNext(old(State()), defaultTmout, queueName, msgId, cur)
      ensures !res ==> State() == old(State())
      ensures res ==>
                && multiset(mDatas) == multiset(old(mDatas)) + multiset{Pair(queueName, msgId)}
                && multiset(chain.contents)
                   == multiset(old(chain.contents)) + multiset{Ev(queueName, msgId, defaultTmout, 1000 * cur)}
      ensures fresh(chain.Nodes() - old(chain.Nodes()))
    {
      var exist := IsExist(queueName, msgId);
      if exist {
        res := false;
      } else {
        ghost var e := Ev(queueName, msgId, defaultTmout, 1000 * cur);
        InsertedAtMultiset(mDatas, UpperBound(mDatas, queueName), Pair(queueName, msgId));
        InsertedAtMultiset(chain.contents, Slot(chain.contents, e.Deadline()), e);
        Insert(queueName, msgId, cur);
        res := true;
      }
    }

    /** MsgLock::Insert */
    method Insert(queueName: string, msgId: int, cur: int)
      requires Valid()
      modifies this, chain, chain.Nodes()
      ensures Valid()
      ensures mDatas == InsertedAt(old(mDatas), UpperBound(old(mDatas), queueName), Pair(queueName, msgId))
      ensures chain.contents == Scheduled(old(chain.contents), Ev(queueName, msgId, defaultTmout, 1000 * cur))
      ensures fresh(chain.Nodes() - old(chain.Nodes()))
    {
      mDatas := InsertedAt(mDatas, UpperBound(mDatas, queueName), Pair(queueName, msgId));
      var e := new Event(defaultTmout, queueName, msgId);
      InsertedAtMembers(chain.nodes, Slot(chain.contents, defaultTmout + 1000 * cur), e);
      chain.Schedule(e, cur);
    }

    /** MsgLock::UnLock */
    method UnLock(queueName: string, msgId: int) returns (res: bool)
      requires Valid()
      modifies this, chain, chain.Nodes()
      ensures Valid() && res
      ensures State() == DelNext(old(State()), defaultTmout, queueName, msgId)
      ensures chain.Nodes() <= old(chain.Nodes())
    {
      var _ := Del(queueName, msgId);
      res := true;
    }

    /** MsgLock::Del : cancel the event, then erase the first entry from find() on with this id. */
    method Del(queueName: string, msgId: int) returns (found: bool)
      requires Valid()
      modifies this, chain, chain.Nodes()
      ensures Valid()
      ensures found <==> Exists(old(State()), queueName, msgId)
      ensures State() == DelNext(old(State()), defaultTmout, queueName, msgId)
      ensures chain.Nodes() <= old(chain.Nodes())
    {
      var e := new Event(defaultTmout, queueName, msgId);
      chain.Cancel(e);
      var iter := Find(mDatas, queueName);
      while iter != |mDatas|
        invariant Find(mDatas, queueName) <= iter <= |mDatas| && mDatas == old(mDatas)
        invariant Located(mDatas, queueName, msgId) == Scan(mDatas, iter, msgId)
        invariant Valid() && chain.contents == Cancelled(old(chain.contents), queueName, msgId, defaultTmout)
        invariant chain.Nodes() <= old(chain.Nodes())
        decreases |mDatas| - iter
      {
        if mDatas[iter].id == msgId {
          mDatas := RemoveAt(mDatas, iter);
          return true;
        }
        iter := iter + 1;
      }
      return false;
    }

    /** The fire loop of EventChain::Run, entered once the head is due. It ends because every call
        of ReleaseLock takes its own event off the chain. */
    method Fire(clock: nat -> int)
      requires Valid() && ChainOk(chain.contents, defaultTmout)
      requires chain.contents != [] && chain.contents[0].Deadline() <= 1000 * clock(0)
      modifies this, chain, chain.Nodes()
      ensures Valid() && ChainOk(chain.contents, defaultTmout)
      ensures State() == Drain(old(State()), defaultTmout, clock, 0)
      ensures Covered(old(State()), defaultTmout) ==> Covered(State(), defaultTmout)
      ensures Agree(old(State()), defaultTmout) ==> Agree(State(), defaultTmout)
    {
      if Agree(State(), defaultTmout) { AgreeCovered(State(), defaultTmout); }
      if Covered(State(), defaultTmout) { DrainKeeps(State(), defaultTmout, clock, 0); }
      hide Covered, Agree;
      var k := 0;
      var left := chain.head.schedTime - (1000 * clock(k) - chain.head.joinTime);
      while left <= 0
        invariant Valid() && ChainOk(chain.contents, defaultTmout) && chain.head != null
        invariant left == chain.contents[0].Deadline() - 1000 * clock(k)
        invariant Drain(State(), defaultTmout, clock, k) == Drain(old(State()), defaultTmout, clock, 0)
        invariant chain.Nodes() <= old(chain.Nodes())
        decreases |chain.contents|
      {
        assert chain.nodes[0].Value() == chain.contents[0];
        FireHead(State(), defaultTmout);
        var _ := Del(chain.head.queue, chain.head.msgId);
        k := k + 1;
        if chain.head == null {
          break;
        }
        assert chain.nodes[0].Value() == chain.contents[0];
        left := chain.head.schedTime - (1000 * clock(k) - chain.head.joinTime);
      }
    }
  }
}
