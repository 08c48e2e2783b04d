/** The worker that moves accepted commands from the master's memory to its log
    (SQSMaster/src/SQSMaster.cpp), and the gate that holds it back while nodes catch up. */
module SyncWorker {
  import opened Basics
  import opened Commands

  /** The gate: a count of its holders, and their ids. */
  datatype Gate = Gate(locks: int, ids: seq<string>)

  function IndexOf(ids: seq<string>, id: string): (k: nat)
    ensures k <= |ids|
    ensures forall i :: 0 <= i < k ==> ids[i] != id
    ensures k < |ids| ==> ids[k] == id
  {
    if ids == [] || ids[0] == id then 0 else 1 + IndexOf(ids[1..], id)
  }

  function Decremented(g: Gate, id: string): Gate {
    var k := IndexOf(g.ids, id);
    if k == |g.ids| then g
    else Gate(if g.locks - 1 < 0 then 0 else g.locks - 1, RemoveAt(g.ids, k))
  }

  function Incremented(g: Gate, id: string): Gate {
    var d := Decremented(g, id);
    Gate(d.locks + 1, d.ids + [id])
  }

  /** The count is the number of holders, and no holder is listed twice. */
  ghost predicate GateOk(g: Gate) {
    g.locks == |g.ids| && NoDup(g.ids)
  }

  /** A decrement takes one holder away, or changes nothing. Its clamp to 0 never fires. */
  lemma DecrementKeeps(g: Gate, id: string)
    requires GateOk(g)
    ensures GateOk(Decremented(g, id))
    ensures Decremented(g, id).locks == if id in g.ids then g.locks - 1 else g.locks
    ensures forall x :: x in Decremented(g, id).ids <==> x in g.ids && x != id
  {
    var k := IndexOf(g.ids, id);
    if k < |g.ids| { RemoveAtMembers(g.ids, k); }
  }

  lemma IncrementKeeps(g: Gate, id: string)
    requires GateOk(g)
    ensures GateOk(Incremented(g, id))
    ensures forall x :: x in Incremented(g, id).ids <==> x in g.ids || x == id
  {
    DecrementKeeps(g, id);
  }

  /** An object several others share: the master's deque and its log. */
  class Shared {
    var items: seq<Command>

    constructor ()
      ensures items == []
    {
      items := [];
    }
  }

  /** The commands that arrive during the first n steps of a pass. */
  ghost function Arrived(arrivals: nat -> seq<Command>, n: nat): seq<Command> {
    if n == 0 then [] else Arrived(arrivals, n - 1) + arrivals(n - 1)
  }

  /** They are in order of arrival: with one command at each step, the i-th to arrive is the i-th. */
  lemma {:induction false} ArrivedInOrder(arrivals: nat -> seq<Command>, n: nat)
    requires forall i :: 0 <= i < n ==> |arrivals(i)| == 1
    ensures |Arrived(arrivals, n)| == n && forall i :: 0 <= i < n ==> Arrived(arrivals, n)[i] == arrivals(i)[0]
  {
    if n > 0 { ArrivedInOrder(arrivals, n - 1); }
  }

  class SyncWorker {
    var locks: int
    var locksVec: seq<string>
    const pQueue: Shared
    const logger: Shared

    ghost function GateState(): Gate
      reads this
    {
      Gate(locks, locksVec)
    }

    constructor (pQueue: Shared, logger: Shared)
      requires pQueue != logger
      ensures this.pQueue == pQueue && this.logger == logger && GateState() == Gate(0, [])
    {
      this.pQueue, this.logger := pQueue, logger;
      locks, locksVec := 0, [];
    }

    method DecrementLock(id: string)
      modifies this
      ensures GateState() == Decremented(old(GateState()), id)
      ensures GateOk(old(GateState())) ==>
                && GateOk(GateState()) && locks == (if id in old(locksVec) then old(locks) - 1 else old(locks))
                && forall x :: x in locksVec <==> x in old(locksVec) && x != id
    {
      if GateOk(GateState()) { DecrementKeeps(GateState(), id); }
      var iter := 0;
      while iter != |locksVec|
        invariant iter <= |locksVec| && GateState() == old(GateState())
        invariant forall i :: 0 <= i < iter ==> locksVec[i] != id
        decreases |locksVec| - iter
      {
        if locksVec[iter] == id {
          locksVec := RemoveAt(locksVec, iter);
          locks := locks - 1;
          if locks < 0 {
            locks := 0;
          }
          break;
        }
        iter := iter + 1;
      }
    }

    method IncrementLock(id: string)
      modifies this
      ensures GateState() == Incremented(old(GateState()), id)
      ensures GateOk(old(GateState())) ==>
                && GateOk(GateState()) && locks == (if id in old(locksVec) then old(locks) else old(locks) + 1)
                && forall x :: x in locksVec <==> x in old(locksVec) || x == id
    {
      if GateOk(GateState()) { IncrementKeeps(GateState(), id); }
      DecrementLock(id);
      locks := locks + 1;
      locksVec := locksVec + [id];
    }

    /** One pass of SyncWorker::Run, entered with the gate open. The size of the queue is read once;
        arrivals(i) is what the request handler pushes while the i-th command is being moved. */
    method FlushPass(arrivals: nat -> seq<Command>)
      requires pQueue != logger && locks <= 0
      modifies pQueue, logger
      ensures var sz := |old(pQueue.items)|;
              && logger.items == old(logger.items) + old(pQueue.items)
              && pQueue.items == Arrived(arrivals, sz)
    {
      ghost var log, queue := logger.items, pQueue.items;
      var sz := |pQueue.items|;
      var i := 0;
      while i < sz
        invariant i <= sz == |queue|
        invariant logger.items == log + queue[..i]
        invariant pQueue.items == queue[i..] + Arrived(arrivals, i)
      {
        var msg := pQueue.items[0];
        logger.items := logger.items + [msg];
        assert log + queue[..i] + [queue[i]] == log + queue[..i + 1];
        pQueue.items := pQueue.items[1..];
        pQueue.items := pQueue.items + arrivals(i);
        i := i + 1;
      }
      assert queue[..sz] == queue && queue[sz..] == [];
    }
  }
}
