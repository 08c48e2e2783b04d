/** The master's timeout events (SQSMaster/src/MsgLock.h, MsgLock.cpp): a singly
    linked chain rewritten in place, and the sequences it stands for. */
module EventChain {
  import opened Basics

  /** What an event carries, apart from its place in the chain. Times are in milliseconds. */
  datatype Ev = Ev(queue: string, id: int, sched: int, join: int) {
    /** The instant the event is due. The source never stores it. */
    function Deadline(): int { join + sched }

    /** Event::operator== : the join time is not compared. */
    predicate Matches(q: string, i: int, s: int) { id == i && queue == q && sched == s }
  }

  ghost predicate Sorted(evs: seq<Ev>) {
    forall i, j :: 0 <= i < j < |evs| ==> evs[i].Deadline() <= evs[j].Deadline()
  }

  /** Where an event due at d goes: before the first event due strictly later. */
  function Slot(evs: seq<Ev>, d: int): (k: nat)
    ensures k <= |evs|
    ensures forall i :: 0 <= i < k ==> evs[i].Deadline() <= d
    ensures k < |evs| ==> d < evs[k].Deadline()
  {
    if evs == [] || d < evs[0].Deadline() then 0 else 1 + Slot(evs[1..], d)
  }

  /** Stable insertion by deadline. */
  function Scheduled(evs: seq<Ev>, e: Ev): seq<Ev> {
    InsertedAt(evs, Slot(evs, e.Deadline()), e)
  }

  /** The first index whose event matches, or |evs|. */
  function FirstMatch(evs: seq<Ev>, q: string, id: int, sched: int): (k: nat)
    ensures k <= |evs|
    ensures forall i :: 0 <= i < k ==> !evs[i].Matches(q, id, sched)
    ensures k < |evs| ==> evs[k].Matches(q, id, sched)
  {
    if evs == [] || evs[0].Matches(q, id, sched) then 0 else 1 + FirstMatch(evs[1..], q, id, sched)
  }

  function Cancelled(evs: seq<Ev>, q: string, id: int, sched: int): seq<Ev> {
    var k := FirstMatch(evs, q, id, sched);
    if k < |evs| then RemoveAt(evs, k) else evs
  }

  /** What is cancelled: the first event equal in id, queue and scheduled time, if there is one. */
  lemma CancelledAt(evs: seq<Ev>, q: string, id: int, sched: int)
    ensures (forall v :: v in evs ==> v.id != id || v.queue != q || v.sched != sched) ==>
              Cancelled(evs, q, id, sched) == evs
    ensures forall k ::
              && 0 <= k < |evs| && evs[k].id == id && evs[k].queue == q && evs[k].sched == sched
              && (forall i :: 0 <= i < k ==> evs[i].id != id || evs[i].queue != q || evs[i].sched != sched) ==>
                Cancelled(evs, q, id, sched) == RemoveAt(evs, k)
  {
    var m := FirstMatch(evs, q, id, sched);
    if m < |evs| { assert evs[m] in evs; }
  }

  /** Insertion keeps the chain in deadline order whatever the clock read, and is stable:
      everything due no later stays ahead of the new event, everything due later follows it. */
  lemma InsertSorted(evs: seq<Ev>, e: Ev)
    requires Sorted(evs)
    ensures Sorted(Scheduled(evs, e))
    ensures exists k ::
              && 0 <= k <= |evs| && Scheduled(evs, e) == InsertedAt(evs, k, e)
              && (forall i :: 0 <= i < k ==> evs[i].join + evs[i].sched <= e.join + e.sched)
              && (forall i :: k <= i < |evs| ==> e.join + e.sched < evs[i].join + evs[i].sched)
  {
    var k := Slot(evs, e.Deadline());
    assert forall i :: k <= i < |evs| ==> e.Deadline() < evs[i].Deadline();
  }

  /** When no clock reading is earlier than a previous one and every event has the same
      timeout, the newest event always goes last: leases expire in the order they were granted. */
  lemma SameTimeoutAppends(evs: seq<Ev>, e: Ev)
    requires forall i :: 0 <= i < |evs| ==> evs[i].sched == e.sched && evs[i].join <= e.join
    ensures Scheduled(evs, e) == evs + [e]
  {
    assert Slot(evs, e.Deadline()) == |evs|;
  }

  lemma RemoveSorted(evs: seq<Ev>, q: string, id: int, sched: int)
    requires Sorted(evs)
    ensures Sorted(Cancelled(evs, q, id, sched))
  {
  }

  class Event {
    const schedTime: int
    var joinTime: int
    var next: Event?
    const queue: string
    const msgId: int

    /** The join time is set when the event is scheduled, the link when it is chained. */
    constructor (schedTime: int, queue: string, msgId: int)
      ensures this.schedTime == schedTime && this.queue == queue && this.msgId == msgId
    {
      this.schedTime, this.queue, this.msgId := schedTime, queue, msgId;
      joinTime, next := 0, null;
    }

    function Value(): Ev
      reads `joinTime
    {
      Ev(queue, msgId, schedTime, joinTime)
    }

    /** Event::operator== */
    predicate Equals(that: Event) {
      that.msgId == msgId && that.queue == queue && that.schedTime == schedTime
    }
  }

  /** The i-th node of a chain, or null past its end. */
  ghost function At(ns: seq<Event>, i: nat): Event? {
    if i < |ns| then ns[i] else null
  }

  class EventChain {
    var head: Event?
    /** The events on the chain, in order, and what they carry. */
    ghost var nodes: seq<Event>
    ghost var contents: seq<Ev>

    /** Following next from head visits exactly nodes, each once, and ends in null. */
    ghost predicate Valid()
      reads this, nodes
    {
      && head == (if nodes == [] then null else nodes[0])
      && NoDup(nodes)
      && Linked()
      && |contents| == |nodes|
      && (forall i :: 0 <= i < |nodes| ==> nodes[i].Value() == contents[i])
    }

    ghost function Nodes(): set<Event>
      reads `nodes
    {
      set e | e in nodes
    }

    ghost predicate Linked()
      reads this, nodes
    {
      && (forall i, j :: 0 <= i < j < |nodes| && j == i + 1 ==> nodes[i].next == nodes[j])
      && (nodes != [] ==> nodes[|nodes| - 1].next == null)
    }

    constructor ()
      ensures Valid() && nodes == []
    {
      head, nodes, contents := null, [], [];
    }

    /** Chains e before every other event. */
    method LinkFirst(e: Event)
      requires Valid() && e !in nodes
      modifies this, e`next
      ensures Valid()
      ensures nodes == InsertedAt(old(nodes), 0, e) && contents == InsertedAt(old(contents), 0, e.Value())
    {
      e.next := head;
      head := e;
      nodes, contents := InsertedAt(nodes, 0, e), InsertedAt(contents, 0, e.Value());
    }

    /** Unlinks the head. */
    method UnlinkFirst()
      requires Valid() && nodes != []
      modifies this
      ensures Valid()
      ensures nodes == RemoveAt(old(nodes), 0) && contents == RemoveAt(old(contents), 0)
    {
      assert 1 < |nodes| ==> nodes[0].next == nodes[1];
      head := head.next;
      nodes, contents := RemoveAt(nodes, 0), RemoveAt(contents, 0);
    }

    /** Chains e after p, the node at index k. */
    method LinkAfter(p: Event, ghost k: nat, e: Event)
      requires Valid() && k < |nodes| && p == nodes[k] && e !in nodes
      modifies this`nodes, this`contents, p`next, e`next
      ensures Valid()
      ensures nodes == InsertedAt(old(nodes), k + 1, e) && contents == InsertedAt(old(contents), k + 1, e.Value())
    {
      assert NoDup(InsertedAt(nodes, k + 1, e)) by { InsertedAtMembers(nodes, k + 1, e); }
      assert k + 1 < |nodes| ==> nodes[k].next == nodes[k + 1];
      var tmp := p.next;
      p.next := e;
      e.next := tmp;
      ghost var ns, vs := nodes, contents;
      nodes, contents := InsertedAt(nodes, k + 1, e), InsertedAt(contents, k + 1, e.Value());
      forall i, j | 0 <= i < j < |nodes| && j == i + 1
        ensures nodes[i].next == nodes[j]
      {
        if i < k {
          assert old(ns[i].next == ns[j]);
        } else if i > k + 1 {
          assert old(ns[i - 1].next == ns[i]);
        }
      }
      assert forall i :: 0 <= i < |ns| ==> ns[i].Value() == vs[i];
    }

    /** Unlinks the event after p, the node at index k. */
    method UnlinkAfter(p: Event, ghost k: nat)
      requires Valid() && k + 1 < |nodes| && p == nodes[k]
      modifies this`nodes, this`contents, p`next
      ensures Valid()
      ensures nodes == RemoveAt(old(nodes), k + 1) && contents == RemoveAt(old(contents), k + 1)
    {
      assert p.next == nodes[k + 1];
      assert k + 2 < |nodes| ==> nodes[k + 1].next == nodes[k + 2];
      p.next := p.next.next;
      nodes, contents := RemoveAt(nodes, k + 1), RemoveAt(contents, k + 1);
    }

    /** The loop of EventChain::Schedule: walks to the last event that is not due later than e. */
    method FindSlot(e: Event, cur: int) returns (pCur: Event, ghost k: nat)
      requires Valid() && nodes != []
      requires contents[0].Deadline() <= 1000 * cur + e.schedTime
      ensures k < |nodes| && pCur == nodes[k]
      ensures Slot(contents, 1000 * cur + e.schedTime) == k + 1
    {
      pCur, k := head, 0;
      assert 1 < |nodes| ==> nodes[0].next == nodes[1];
      while pCur.next != null
        invariant k < |nodes| && pCur == nodes[k] && pCur.next == At(nodes, k + 1)
        invariant forall i :: 0 <= i <= k ==> contents[i].Deadline() <= 1000 * cur + e.schedTime
        decreases |nodes| - k
      {
        assert nodes[k + 1].Value() == contents[k + 1];
        if pCur.next.schedTime - (1000 * cur - pCur.next.joinTime) > e.schedTime {
          return;
        }
        pCur, k := pCur.next, k + 1;
        assert k + 1 < |nodes| ==> nodes[k].next == nodes[k + 1];
      }
    }

    /** EventChain::Schedule. cur is the reading of time(), in seconds. */
    method Schedule(e: Event, cur: int)
      requires Valid() && e !in nodes
      modifies this, nodes, e
      ensures Valid()
      ensures contents == Scheduled(old(contents), Ev(e.queue, e.msgId, e.schedTime, 1000 * cur))
      ensures nodes == InsertedAt(old(nodes), Slot(old(contents), e.schedTime + 1000 * cur), e)
    {
      ghost var ns, evs, v := nodes, contents, Ev(e.queue, e.msgId, e.schedTime, 1000 * cur);
      e.joinTime := 1000 * cur;
      assert Valid() && e.Value() == v;
      ghost var at := 0;
      if head == null {
        LinkFirst(e);
      } else if head.schedTime - (1000 * cur - head.joinTime) > e.schedTime {
        assert nodes[0].Value() == evs[0];
        LinkFirst(e);
      } else {
        assert nodes[0].Value() == evs[0];
        var pCur, k := FindSlot(e, cur);
        LinkAfter(pCur, k, e);
        at := k + 1;
      }
      assert contents == InsertedAt(evs, at, v) && Slot(evs, v.Deadline()) == at;
    }

    /** The loop of EventChain::Cancel: walks to the event before the first equal to e, or to the last. */
    method FindMatch(e: Event) returns (pCur: Event, ghost k: nat)
      requires Valid() && nodes != [] && !nodes[0].Equals(e)
      ensures k < |nodes| && pCur == nodes[k] && pCur.next == At(nodes, k + 1)
      ensures FirstMatch(contents, e.queue, e.msgId, e.schedTime) == k + 1
    {
      pCur, k := head, 0;
      assert nodes[0].Value() == contents[0];
      assert 1 < |nodes| ==> nodes[0].next == nodes[1];
      while pCur.next != null
        invariant k < |nodes| && pCur == nodes[k] && pCur.next == At(nodes, k + 1)
        invariant k < FirstMatch(contents, e.queue, e.msgId, e.schedTime)
        decreases |nodes| - k
      {
        assert nodes[k + 1].Value() == contents[k + 1];
        if pCur.next.Equals(e) {
          return;
        }
        pCur, k := pCur.next, k + 1;
        assert k + 1 < |nodes| ==> nodes[k].next == nodes[k + 1];
      }
    }

    /** EventChain::Cancel: unlink the first event equal to e, if there is one. */
    method Cancel(e: Event?)
      requires Valid()
      modifies this, nodes
      ensures Valid()
      ensures contents == if e == null then old(contents) else Cancelled(old(contents), e.queue, e.msgId, e.schedTime)
      ensures Nodes() <= old(Nodes())
    {
      if head == null || e == null {
        return;
      }
      var pCur := head;
      if pCur.Equals(e) {
        assert nodes[0].Value() == contents[0];
        UnlinkFirst();
        return;
      }
      ghost var k;
      pCur, k := FindMatch(e);
      if pCur.next != null {
        UnlinkAfter(pCur, k);
      }
    }
  }
}
