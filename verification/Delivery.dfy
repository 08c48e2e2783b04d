/** Consumers on every node at once: each node's get loop asks the master for one
    lock after the other, interleaved with the loops of other nodes, unlocks and expiries. */
module Delivery {
  import opened Basics
  import opened MsgLock
  import opened Database
  import opened FanOut
  import LR = LockRuns

  /** A get in progress: the ids the master has refused it so far. Its next row is the one they lead up to. */
  datatype Get = Get(queue: string, refused: seq<int>)

  datatype State = State(locks: Locks, stores: map<Addr, Tables>, gets: map<Addr, Get>)

  /** Ask is one turn of a get loop. A node handles one request at a time, so its store changes only
      between gets. */
  datatype Step =
    | StartGet(node: Addr, queue: string)
    | Ask(node: Addr, cur: int)
    | StoreChanges(node: Addr, store: Tables)
    | UnLock(queue: string, id: int)
    | Expire(cur: int)

  /** The rows of the queue that node n's get searches. */
  function RowsAt(s: State, n: Addr): seq<Row> {
    if n in s.gets && n in s.stores then RowsOf(s.stores[n], s.gets[n].queue) else []
  }

  /** The row that node n asks for next, if its queue has one left. */
  function Wanted(s: State, n: Addr): Option<Row> {
    if n in s.gets && |s.gets[n].refused| < |RowsAt(s, n)| then Some(RowsAt(s, n)[|s.gets[n].refused|]) else None
  }

  /** What a step asks of the lock service, if anything. */
  function Request(s: State, a: Step): Option<LR.Step> {
    match a
    case Ask(n, cur) => if Wanted(s, n).Some? then Some(LR.DoLock(s.gets[n].queue, Wanted(s, n).value.id, cur))
         else None
    case UnLock(q, id) => Some(LR.DoUnLock(q, id))
    case Expire(cur) => Some(LR.Expire(cur))
    case _ => None
  }

  function LocksAfter(s: State, tmout: int, a: Step): Locks {
    match Request(s, a)
    case None => s.locks
    case Some(l) => LR.Next(s.locks, tmout, l)
  }

  function Next(s: State, tmout: int, a: Step): State {
    var locks := LocksAfter(s, tmout, a);
    match a
    case StartGet(n, q) => if n in s.gets || n !in s.stores then s else s.(gets := s.gets[n := Get(q, [])])
    case Ask(n, cur) =>
      if n !in s.gets then s
      else if Wanted(s, n).Some? && Exists(s.locks, s.gets[n].queue, Wanted(s, n).value.id) then
        State(locks, s.stores, s.gets[n := Get(s.gets[n].queue, s.gets[n].refused + [Wanted(s, n).value.id])])
      else State(locks, s.stores, s.gets - {n})
    case StoreChanges(n, db) => if n in s.gets then s else s.(stores := s.stores[n := db])
    case _ => s.(locks := locks)
  }

  const INIT := State(Locks([], []), map[], map[])

  function After(tmout: int, run: seq<Step>, n: nat): State
    requires n <= |run|
  {
    if n == 0 then INIT else Next(After(tmout, run, n - 1), tmout, run[n - 1])
  }

  /** The step answers a client of node n with message p. */
  predicate Delivers(s: State, a: Step, n: Addr, p: Pair) {
    && a.Ask? && a.node == n && Wanted(s, n).Some?
    && Pair(s.gets[n].queue, Wanted(s, n).value.id) == p && !Exists(s.locks, p.queue, p.id)
  }

  /** The step ends the lease of p. */
  predicate Releases(s: State, a: Step, p: Pair) {
    Request(s, a).Some? && LR.Releases(s.locks, Request(s, a).value, p)
  }

  /** The step cuts the lease of p short: what it asks to delete is free, and p's entry goes instead. */
  predicate Cuts(s: State, a: Step, p: Pair) {
    Request(s, a).Some? && LR.Cuts(s.locks, Request(s, a).value, p)
  }

  /** One way or the other, the step ends the lease of p. */
  predicate Ends(s: State, a: Step, p: Pair) {
    Releases(s, a, p) || Cuts(s, a, p)
  }

  /** An unlock names a held pair, or one that no other queue's lock shadows. */
  ghost predicate Safe(s: State, a: Step) {
    Request(s, a).Some? ==> LR.Safe(s.locks, Request(s, a).value)
  }

  ghost predicate SafeThrough(tmout: int, run: seq<Step>, n: nat)
    requires n <= |run|
  {
    n == 0 || (SafeThrough(tmout, run, n - 1) && Safe(After(tmout, run, n - 1), run[n - 1]))
  }

  lemma NextLocks(s: State, tmout: int, a: Step)
    ensures Next(s, tmout, a).locks == LocksAfter(s, tmout, a)
  {
  }

  lemma {:induction false} SafeAgrees(tmout: int, run: seq<Step>, n: nat)
    requires n <= |run| && SafeThrough(tmout, run, n)
    ensures Agree(After(tmout, run, n).locks, tmout)
  {
    hide Agree, LR.Next, LR.Safe, Request, Next;
    if n == 0 {
      LR.EmptyAgrees(tmout);
    } else {
      SafeAgrees(tmout, run, n - 1);
      var s, a := After(tmout, run, n - 1), run[n - 1];
      NextLocks(s, tmout, a);
      if Request(s, a).Some? { LR.StepAgreesExactly(s.locks, tmout, Request(s, a).value); }
    }
  }

  /** In every run, whatever its unlocks name, each locked message has an event of its own. */
  lemma {:induction false} RunCovered(tmout: int, run: seq<Step>, n: nat)
    requires n <= |run|
    ensures Covered(After(tmout, run, n).locks, tmout)
  {
    hide Covered, LR.Next, Request, Next;
    if n == 0 {
      LR.EmptyAgrees(tmout);
      AgreeCovered(Locks([], []), tmout);
    } else {
      RunCovered(tmout, run, n - 1);
      var s, a := After(tmout, run, n - 1), run[n - 1];
      NextLocks(s, tmout, a);
      if Request(s, a).Some? { LR.StepCovers(s.locks, tmout, Request(s, a).value); }
    }
  }

  /** What the other steps do. A get starts with nothing refused, unless the node is busy with one; a store changes
      only between gets; and unlocks and expiries leave gets and stores alone. */
  lemma OtherSteps(s: State, tmout: int, n: Addr, q: string, id: int, cur: int, db: Tables)
    ensures var t := Next(s, tmout, StartGet(n, q));
            && t.locks == s.locks && t.stores == s.stores
            && t.gets == if n in s.stores && n !in s.gets then s.gets[n := Get(q, [])] else s.gets
    ensures var t := Next(s, tmout, StoreChanges(n, db));
            t.locks == s.locks && t.gets == s.gets && t.stores == if n in s.gets then s.stores else s.stores[n := db]
    ensures Next(s, tmout, UnLock(q, id)) == s.(locks := LR.Next(s.locks, tmout, LR.DoUnLock(q, id)))
    ensures Next(s, tmout, Expire(cur)) == s.(locks := LR.Next(s.locks, tmout, LR.Expire(cur)))
  {
  }

  /** One turn of a get. The get ends without a message if it has been refused every stored message; else it asks
      for the next one in id order: is refused it, if that or a message that shadows it is locked, and goes on;
      or locks it, returns it and ends. */
  lemma Turn(s: State, tmout: int, n: Addr, cur: int)
    requires Covered(s.locks, tmout) && n in s.gets && n in s.stores
    ensures var t, q, k := Next(s, tmout, Ask(n, cur)), s.gets[n].queue, |s.gets[n].refused|;
            var rows := if q in s.stores[n] then s.stores[n][q].rows else [];
            && t.stores == s.stores
            && (forall m :: m in s.gets && m != n ==> m in t.gets && t.gets[m] == s.gets[m])
            && (k >= |rows| ==> t.locks == s.locks && n !in t.gets && forall p :: !Delivers(s, Ask(n, cur), n, p))
            && (k < |rows| ==>
                  var p := Pair(q, rows[k].id);
                  if p in s.locks.pairs || Shadowed(s.locks.pairs, q, rows[k].id) then
                    && t.locks == s.locks && n in t.gets && t.gets[n] == Get(q, s.gets[n].refused + [rows[k].id])
                    && forall r :: !Delivers(s, Ask(n, cur), n, r)
                  else
                    && n !in t.gets && p in t.locks.pairs
                    && forall r :: Delivers(s, Ask(n, cur), n, r) <==> r == p)
  {
    var q, k := s.gets[n].queue, |s.gets[n].refused|;
    if k < |RowsAt(s, n)| {
      var id := RowsAt(s, n)[k].id;
      LockedOrShadowed(s.locks, tmout, q, id);
      InsertedAtMembers(s.locks.pairs, UpperBound(s.locks.pairs, q), Pair(q, id));
    }
    hide Shadowed, Covered, Exists;
  }

  /** A lock can only go by a release of it, or by a step that cuts its lease short. */
  lemma StaysLocked(s: State, tmout: int, a: Step, p: Pair)
    requires Covered(s.locks, tmout) && !Releases(s, a, p) && !Cuts(s, a, p)
    requires p in s.locks.pairs || exists n :: Delivers(s, a, n, p)
    ensures p in Next(s, tmout, a).locks.pairs
  {
    hide Covered, LR.Next, LR.Releases, LR.Cuts;
    NextLocks(s, tmout, a);
    if Request(s, a).Some? { LR.StepMember(s.locks, tmout, Request(s, a).value, p); }
  }

  lemma {:induction false} LockedUntilEnded(tmout: int, run: seq<Step>, i: nat, j: nat, n: Addr, p: Pair)
    requires i < j <= |run| && Delivers(After(tmout, run, i), run[i], n, p)
    requires forall k :: i < k < j ==> !Ends(After(tmout, run, k), run[k], p)
    ensures p in After(tmout, run, j).locks.pairs
  {
    hide Covered, Next, Delivers, Releases, Cuts;
    RunCovered(tmout, run, j - 1);
    var s := After(tmout, run, j - 1);
    if j > i + 1 {
      LockedUntilEnded(tmout, run, i, j - 1, n, p);
    } else {
      DeliveryKeeps(s, run[i], n, p);
    }
    StaysLocked(s, tmout, run[j - 1], p);
  }

  lemma DeliveryKeeps(s: State, a: Step, n: Addr, p: Pair)
    requires Delivers(s, a, n, p)
    ensures !Releases(s, a, p) && !Cuts(s, a, p)
  {
  }

  /** Across the cluster and in any run: between two gets that return one message, on whatever nodes, some
      step unlocks it, lets its lease expire, or cuts the lease short. */
  lemma DeliveredTwiceEndedBetween(tmout: int, run: seq<Step>, i: nat, j: nat, n: Addr, m: Addr, p: Pair)
    requires i < j < |run|
    requires Delivers(After(tmout, run, i), run[i], n, p) && Delivers(After(tmout, run, j), run[j], m, p)
    ensures exists k :: i < k < j && Ends(After(tmout, run, k), run[k], p)
  {
    hide Covered, Next, Releases, Cuts;
    RunCovered(tmout, run, j);
    LockedOrShadowed(After(tmout, run, j).locks, tmout, p.queue, p.id);
    if forall k :: i < k < j ==> !Ends(After(tmout, run, k), run[k], p) {
      LockedUntilEnded(tmout, run, i, j, n, p);
    }
  }

  /** One delivery per lease, in a run whose unlocks are safe: between the two the message is unlocked or its
      lease expires. */
  lemma OneDeliveryPerLease(tmout: int, run: seq<Step>, i: nat, j: nat, n: Addr, m: Addr, p: Pair)
    requires i < j < |run| && SafeThrough(tmout, run, j)
    requires Delivers(After(tmout, run, i), run[i], n, p) && Delivers(After(tmout, run, j), run[j], m, p)
    ensures exists k :: i < k < j && Releases(After(tmout, run, k), run[k], p)
  {
    hide Agree, Next, Safe, Releases, Cuts, Delivers;
    DeliveredTwiceEndedBetween(tmout, run, i, j, n, m, p);
    var k :| i < k < j && Ends(After(tmout, run, k), run[k], p);
    SafePrefix(tmout, run, k, j);
    SafeAgrees(tmout, run, k);
    SafeCutsNothing(After(tmout, run, k), tmout, run[k], p);
  }

  lemma {:induction false} SafePrefix(tmout: int, run: seq<Step>, i: nat, n: nat)
    requires i < n <= |run| && SafeThrough(tmout, run, n)
    ensures SafeThrough(tmout, run, i) && Safe(After(tmout, run, i), run[i])
  {
    hide Next, Safe;
    if i < n - 1 { SafePrefix(tmout, run, i, n - 1); }
  }

  lemma SafeCutsNothing(s: State, tmout: int, a: Step, p: Pair)
    requires Agree(s.locks, tmout) && Safe(s, a)
    ensures !Cuts(s, a, p)
  {
    hide Agree, LR.Safe, LR.Cuts;
    if Request(s, a).Some? { LR.SafeCutsNothing(s.locks, tmout, Request(s, a).value, p); }
  }

  /** Leases end only by their own unlock or expiry in this step. */
  ghost predicate KeepsLeases(s: State, tmout: int, a: Step) {
    forall p :: p in s.locks.pairs && !Releases(s, a, p) ==> p in Next(s, tmout, a).locks.pairs
  }

  ghost predicate KeepsLeasesThrough(tmout: int, run: seq<Step>, n: nat)
    requires n <= |run|
  {
    n == 0 || (KeepsLeasesThrough(tmout, run, n - 1) && KeepsLeases(After(tmout, run, n - 1), tmout, run[n - 1]))
  }

  lemma SafeKeepsLeasesExactly(s: State, tmout: int, a: Step)
    requires Agree(s.locks, tmout)
    ensures KeepsLeases(s, tmout, a) <==> Safe(s, a)
  {
    hide Agree, LR.Safe, LR.Releases, LR.Next;
    NextLocks(s, tmout, a);
    if Request(s, a).Some? { LR.SafeKeepsLeasesExactly(s.locks, tmout, Request(s, a).value); }
  }

  /** Exactly when every lease of a run ends only by its own unlock or expiry, whatever the nodes do: when
      every unlock names a locked message, or one that nothing shadows. */
  lemma {:induction false} RunKeepsLeasesExactly(tmout: int, run: seq<Step>, n: nat)
    requires n <= |run|
    ensures KeepsLeasesThrough(tmout, run, n) <==> SafeThrough(tmout, run, n)
  {
    hide Agree, Next, Safe, KeepsLeases;
    if n > 0 {
      RunKeepsLeasesExactly(tmout, run, n - 1);
      if SafeThrough(tmout, run, n - 1) {
        SafeAgrees(tmout, run, n - 1);
        SafeKeepsLeasesExactly(After(tmout, run, n - 1), tmout, run[n - 1]);
      }
    }
  }

  /** A get in progress has been refused exactly the rows before its next one, in id order. */
  ghost predicate GetOk(s: State, n: Addr) {
    n in s.gets ==>
      && n in s.stores && |s.gets[n].refused| <= |RowsAt(s, n)|
      && forall i :: 0 <= i < |s.gets[n].refused| ==> s.gets[n].refused[i] == RowsAt(s, n)[i].id
  }

  lemma {:induction false} GetsOk(tmout: int, run: seq<Step>, k: nat, n: Addr)
    requires k <= |run|
    ensures GetOk(After(tmout, run, k), n)
  {
    hide Next, GetOk;
    if k > 0 {
      GetsOk(tmout, run, k - 1, n);
      StepGetOk(After(tmout, run, k - 1), tmout, run[k - 1], n);
    } else {
      InitGetOk(n);
    }
  }

  lemma InitGetOk(n: Addr)
    ensures GetOk(INIT, n)
  {
  }

  lemma StepGetOk(s: State, tmout: int, a: Step, n: Addr)
    requires GetOk(s, n)
    ensures GetOk(Next(s, tmout, a), n)
  {
    hide LocksAfter, Exists;
  }

  /** At step k node n asked for message id and the master refused, because the message or one that
      shadows it was locked. */
  ghost predicate Refused(tmout: int, run: seq<Step>, k: nat, n: Addr, id: int)
    requires k < |run|
  {
    var s := After(tmout, run, k);
    && run[k].Ask? && run[k].node == n && Wanted(s, n).Some? && Wanted(s, n).value.id == id
    && (Pair(s.gets[n].queue, id) in s.locks.pairs || Shadowed(s.locks.pairs, s.gets[n].queue, id))
  }

  /** Node n is busy with one get from step i on, up to step k. */
  ghost predicate OneGet(tmout: int, run: seq<Step>, i: nat, k: nat, n: Addr)
    requires i <= k <= |run|
  {
    forall t :: i <= t <= k ==> n in After(tmout, run, t).gets
  }

  lemma StepRefuses(s: State, tmout: int, a: Step, n: Addr, id: int)
    requires n in Next(s, tmout, a).gets && id in Next(s, tmout, a).gets[n].refused
    ensures n in s.gets
    ensures id in s.gets[n].refused
         || (a.Ask? && a.node == n && Wanted(s, n).Some? && Wanted(s, n).value.id == id
              && Exists(s.locks, s.gets[n].queue, id))
  {
    hide LocksAfter;
  }

  lemma {:induction false} RefusalsHappened(tmout: int, run: seq<Step>, k: nat, n: Addr, id: int)
    requires k <= |run|
    requires n in After(tmout, run, k).gets && id in After(tmout, run, k).gets[n].refused
    ensures exists i :: 0 <= i < k && OneGet(tmout, run, i, k, n) && Refused(tmout, run, i, n, id)
  {
    hide Next, Covered, Wanted, Exists, Shadowed;
    var s := After(tmout, run, k - 1);
    StepRefuses(s, tmout, run[k - 1], n, id);
    if id in s.gets[n].refused {
      RefusalsHappened(tmout, run, k - 1, n, id);
      var i :| 0 <= i < k - 1 && OneGet(tmout, run, i, k - 1, n) && Refused(tmout, run, i, n, id);
      hide Refused;
      assert OneGet(tmout, run, i, k, n);
    } else {
      RunCovered(tmout, run, k - 1);
      LockedOrShadowed(s.locks, tmout, s.gets[n].queue, id);
      assert Refused(tmout, run, k - 1, n, id) && OneGet(tmout, run, k - 1, k, n);
    }
  }

  lemma LockedOrShadowed(s: Locks, tmout: int, q: string, id: int)
    requires Covered(s, tmout)
    ensures Exists(s, q, id) <==> Pair(q, id) in s.pairs || Shadowed(s.pairs, q, id)
  {
    ExistsExactly(s.pairs, q, id);
  }

  /** What the end of a get tells its client about the store: every stored message before the one it is given, or
      every one at all if it is given none, was refused to this get while it, or one that shadows it, was locked. */
  lemma GetAnswers(tmout: int, run: seq<Step>, k: nat, row: Row)
    requires k < |run| && run[k].Ask?
    requires var s, n := After(tmout, run, k), run[k].node;
             && n in s.gets && n in s.stores && s.gets[n].queue in s.stores[n] && TablesOk(s.stores[n])
             && row in s.stores[n][s.gets[n].queue].rows
    requires run[k].node !in After(tmout, run, k + 1).gets
    requires forall p :: Delivers(After(tmout, run, k), run[k], run[k].node, p) ==> row.id < p.id
    ensures exists i ::
              0 <= i < k && OneGet(tmout, run, i, k, run[k].node) && Refused(tmout, run, i, run[k].node, row.id)
  {
    var s, n := After(tmout, run, k), run[k].node;
    RunCovered(tmout, run, k);
    GetsOk(tmout, run, k, n);
    var x :| 0 <= x < |RowsAt(s, n)| && RowsAt(s, n)[x] == row;
    var j := |s.gets[n].refused|;
    assert TableOk(s.stores[n][s.gets[n].queue]);
    Turn(s, tmout, n, run[k].cur);
    if j < |RowsAt(s, n)| {
      assert Delivers(s, run[k], n, Pair(s.gets[n].queue, RowsAt(s, n)[j].id));
      assert x < j;
    }
    hide Covered, Next, Delivers;
    GetSearches(tmout, run, k, x);
  }

  /** What a get gives its client while every other node is at work: the first row, in id order, whose
      lock was granted, every row before it having been refused to this get; or a failure, and then
      every row was refused. A row is refused only because it, or one that shadows it, was locked. */
  lemma GetSearches(tmout: int, run: seq<Step>, k: nat, x: nat)
    requires k < |run| && run[k].Ask? && run[k].node in After(tmout, run, k).gets
    requires x < |RowsAt(After(tmout, run, k), run[k].node)|
    ensures var s, n := After(tmout, run, k), run[k].node;
            || (Wanted(s, n) == Some(RowsAt(s, n)[x]) && x == |s.gets[n].refused|)
            || (Wanted(s, n).Some? && |s.gets[n].refused| < x)
            || (exists i :: 0 <= i < k && OneGet(tmout, run, i, k, n) && Refused(tmout, run, i, n, RowsAt(s, n)[x].id))
  {
    hide Next, OneGet, Refused;
    var s, n := After(tmout, run, k), run[k].node;
    GetsOk(tmout, run, k, n);
    if x < |s.gets[n].refused| {
      assert s.gets[n].refused[x] == RowsAt(s, n)[x].id;
      RefusalsHappened(tmout, run, k, n, RowsAt(s, n)[x].id);
    }
  }
}
