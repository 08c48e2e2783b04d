/** The master (SQSMaster/src/SQSMaster.cpp, SQSMaster.h): its request handler, as
    methods of a class, and as functions of the state behind it. */
module Master {
  import opened Basics
  import opened Commands
  import opened FanOut
  import HB = HeartBeat
  import MB = Membership
  import SW = SyncWorker
  import ML = MsgLock
  import Decimal

  /** log is on disk, queue in memory; listed are the joined nodes. */
  datatype MState = MState(log: seq<Command>, queue: seq<Command>, gate: SW.Gate, listed: seq<Addr>)

  const START := MState([], [], SW.Gate(0, []), [])

  /** A command dispatched to a node. */
  datatype Sent = Sent(to: Addr, command: Command)

  function ToOne(n: Addr, cs: seq<Command>): (s: seq<Sent>)
    ensures |s| == |cs|
    ensures forall i :: 0 <= i < |s| ==> s[i] == Sent(n, cs[i])
  {
    seq(|cs|, i requires 0 <= i < |cs| => Sent(n, cs[i]))
  }

  function ToAll(ns: seq<Addr>, c: Command): (s: seq<Sent>)
    ensures |s| == |ns|
    ensures forall i :: 0 <= i < |s| ==> s[i] == Sent(ns[i], c)
  {
    seq(|ns|, i requires 0 <= i < |ns| => Sent(ns[i], c))
  }

  /** Logger::tailList : the last n records, or all of them. */
  function Tail(log: seq<Command>, n: int): seq<Command>
    requires 0 <= n
  {
    if n <= |log| then log[|log| - n..] else log
  }

  /** The name a node holds the gate under: its name and port, run together. */
  function Tid(n: Addr): string {
    n.name + Decimal.IntText(n.port)
  }

  function AcceptNext(m: MState, c: Command, alive: Addr -> bool): MState {
    m.(queue := m.queue + [c], listed := Kept(m.listed, alive))
  }

  function AcceptSends(m: MState, c: Command, origin: Addr, alive: Addr -> bool): seq<Sent> {
    ToAll(Filter(Kept(m.listed, alive), Passing(origin)), c)
  }

  function RecoverNext(m: MState, n: Addr): MState {
    m.(gate := SW.Incremented(m.gate, Tid(n)))
  }

  function RecoverSends(m: MState, n: Addr, logsize: int): seq<Sent> {
    if |m.log| < logsize then [] else ToOne(n, Tail(m.log, |m.log| - logsize))
  }

  function JoinNext(m: MState, n: Addr): MState {
    m.(listed := m.listed + [n], gate := SW.Decremented(m.gate, Tid(n)))
  }

  function JoinSends(m: MState, n: Addr): seq<Sent> {
    ToOne(n, m.queue)
  }

  /** A recovery takes the gate under the node's name and leaves the other holders in place. */
  lemma RecoverHolds(m: MState, n: Addr)
    requires SW.GateOk(m.gate)
    ensures var t := RecoverNext(m, n);
            && t.log == m.log && t.queue == m.queue && t.listed == m.listed && SW.GateOk(t.gate)
            && t.gate.locks == (if Tid(n) in m.gate.ids then m.gate.locks else m.gate.locks + 1)
            && forall x :: x in t.gate.ids <==> x in m.gate.ids || x == Tid(n)
  {
    SW.IncrementKeeps(m.gate, Tid(n));
    SW.DecrementKeeps(m.gate, Tid(n));
  }

  /** A join releases the joining node's entry and no other. */
  lemma JoinReleases(m: MState, n: Addr)
    requires SW.GateOk(m.gate)
    ensures var t := JoinNext(m, n);
            && t.log == m.log && t.queue == m.queue && t.listed == m.listed + [n] && SW.GateOk(t.gate)
            && t.gate.locks == (if Tid(n) in m.gate.ids then m.gate.locks - 1 else m.gate.locks)
            && forall x :: x in t.gate.ids <==> x in m.gate.ids && x != Tid(n)
  {
    SW.DecrementKeeps(m.gate, Tid(n));
  }

  /** Two nodes can hold the gate under one name. The second to recover takes the first's place, and
      when it joins, the gate opens although the first is still catching up. */
  lemma TidsCollide()
    ensures var a, b := Addr("node1", 21, "", 0), Addr("node", 121, "", 0);
            && a != b && Tid(a) == Tid(b)
            && JoinNext(RecoverNext(RecoverNext(START, a), b), b).gate.locks == 0
  {
    var a, b := Addr("node1", 21, "", 0), Addr("node", 121, "", 0);
    assert Decimal.NatText(2) == "2" && Decimal.NatText(12) == "12";
    assert Decimal.NatText(21) == "21" && Decimal.NatText(121) == "121";
    assert Tid(a) == "node121" && Tid(b) == "node121";
  }

  /** Exactly when two nodes hold the gate under one name: when the digits of the one's port begin with the
      rest of the other's name. */
  lemma TidsCollideExactly(a: Addr, b: Addr)
    requires |a.name| <= |b.name|
    ensures Tid(a) == Tid(b)
       <==> a.name <= b.name && Decimal.IntText(a.port) == b.name[|a.name|..] + Decimal.IntText(b.port)
  {
    var n, x, y := |a.name|, Decimal.IntText(a.port), Decimal.IntText(b.port);
    if Tid(a) == Tid(b) {
      assert a.name == Tid(a)[..n] == Tid(b)[..n] == b.name[..n];
      assert x == Tid(a)[n..] == Tid(b)[n..] == b.name[n..] + y;
    } else if a.name <= b.name {
      assert b.name == a.name + b.name[n..];
      assert Tid(b) == a.name + (b.name[n..] + y);
    }
  }

  /** So names of equal length never collide: two nodes with one gate name have names of different lengths. */
  lemma CollidingNamesDiffer(a: Addr, b: Addr)
    requires Tid(a) == Tid(b) && |a.name| == |b.name|
    ensures a.name == b.name && a.port == b.port
  {
    TidsCollideExactly(a, b);
    assert b.name[|a.name|..] + Decimal.IntText(b.port) == Decimal.IntText(b.port);
    Decimal.IntRoundTrip(a.port);
    Decimal.IntRoundTrip(b.port);
  }

  /** What a collision does, whoever else holds the gate: the second to recover takes the first's place, and
      after its join no one holds the gate for the first. */
  lemma CollisionOpensGate(m: MState, a: Addr, b: Addr)
    requires SW.GateOk(m.gate) && Tid(a) == Tid(b)
    ensures Tid(a) !in JoinNext(RecoverNext(RecoverNext(m, a), b), b).gate.ids
  {
    hide SW.Incremented, SW.Decremented, SW.GateOk;
    SW.IncrementKeeps(m.gate, Tid(a));
    SW.IncrementKeeps(RecoverNext(m, a).gate, Tid(b));
    SW.DecrementKeeps(RecoverNext(RecoverNext(m, a), b).gate, Tid(b));
  }

  /** One turn of the sweep's loop, at index i of v. */
  lemma SweepTurn(v: seq<Addr>, i: nat, alive: Addr -> bool)
    requires i < |v|
    ensures var w := if alive(v[i]) then v else RemoveAt(v, i);
            if i == |w| then Walk(v, i, alive) == w == v[..i] && Checked(v[i..], alive) == [v[i]]
            else
              && w[..i] == v[..i] && Walk(v, i, alive) == Walk(w, i + 1, alive)
              && Checked(v[i..], alive) == [v[i]] + Checked(w[i + 1..], alive)
  {
    var w := if alive(v[i]) then v else RemoveAt(v, i);
    if !alive(v[i]) && i == |w| {
      assert w == v[..i] && |v[i..]| == 1;
    } else {
      assert w[..i] == v[..i] && w[i + 1..] == if alive(v[i]) then v[i..][1..] else v[i..][2..];
    }
  }

  /** What the sweep's loop keeps: v is the list, i the index, done what was sent to, asked whom the
      heartbeat was asked about, now its list. */
  ghost predicate Sweeping(nodes: seq<Addr>, clients: seq<HB.Client>, cur: int, origin: Addr,
                           v: seq<Addr>, i: nat, done: seq<Addr>, asked: seq<Addr>, now: seq<HB.Client>) {
    var alive := HB.LiveIn(clients, cur);
    && i <= |v| && HB.OneEach(clients) && now == HB.AskedAll(clients, asked, cur)
    && Walk(v, i, alive) == Kept(nodes, alive) && done == Filter(v[..i], Passing(origin))
    && Checked(nodes, alive) == asked + Checked(v[i..], alive)
  }

  /** What it leaves. */
  ghost predicate Swept(nodes: seq<Addr>, clients: seq<HB.Client>, cur: int, origin: Addr,
                        v: seq<Addr>, done: seq<Addr>, now: seq<HB.Client>) {
    var alive := HB.LiveIn(clients, cur);
    && v == Kept(nodes, alive) && done == Filter(Kept(nodes, alive), Passing(origin))
    && now == HB.AskedAll(clients, Checked(nodes, alive), cur)
  }

  lemma SweepBegins(nodes: seq<Addr>, clients: seq<HB.Client>, cur: int, origin: Addr)
    requires HB.OneEach(clients)
    ensures Sweeping(nodes, clients, cur, origin, nodes, 0, [], [], clients)
  {
    WalkKeeps(nodes, 0, HB.LiveIn(clients, cur));
    assert nodes[0..] == nodes && nodes[..0] == [];
  }

  lemma SweepAsks(clients: seq<HB.Client>, cur: int, asked: seq<Addr>, now: seq<HB.Client>, node: Addr)
    requires HB.OneEach(clients) && now == HB.AskedAll(clients, asked, cur)
    ensures HB.Live(now, node, cur) <==> HB.LiveIn(clients, cur)(node)
    ensures HB.Asked(now, node, cur) == HB.AskedAll(clients, asked + [node], cur)
  {
    HB.AskingIsStable(clients, asked, cur, node);
    HB.AskedSnoc(clients, asked, node, cur);
  }

  lemma SweepGoesOn(nodes: seq<Addr>, clients: seq<HB.Client>, cur: int, origin: Addr,
                    v: seq<Addr>, i: nat, done: seq<Addr>, asked: seq<Addr>, now: seq<HB.Client>)
    requires Sweeping(nodes, clients, cur, origin, v, i, done, asked, now) && i < |v|
    ensures var live, next := HB.Live(now, v[i], cur), HB.Asked(now, v[i], cur);
            var w := if live then v else RemoveAt(v, i);
            if i == |w| then Swept(nodes, clients, cur, origin, w, done, next)
            else Sweeping(nodes, clients, cur, origin, w, i + 1,
                          if Passes(origin, w[i]) then done + [w[i]] else done, asked + [v[i]], next)
  {
    hide Filter, Walk, Kept, Checked, HB.Live, HB.Asked, HB.AskedAll, HB.OneEach, HB.LiveIn;
    var alive := HB.LiveIn(clients, cur);
    SweepAsks(clients, cur, asked, now, v[i]);
    SweepTurn(v, i, alive);
    var w := if alive(v[i]) then v else RemoveAt(v, i);
    if i < |w| {
      FilterSnoc(v[..i], w[i], Passing(origin));
      assert w[..i + 1] == v[..i] + [w[i]];
      assert asked + ([v[i]] + Checked(w[i + 1..], alive)) == asked + [v[i]] + Checked(w[i + 1..], alive);
      assert done + [] == done;
    }
  }

  lemma SweepEnds(nodes: seq<Addr>, clients: seq<HB.Client>, cur: int, origin: Addr,
                  v: seq<Addr>, done: seq<Addr>, asked: seq<Addr>, now: seq<HB.Client>)
    requires Sweeping(nodes, clients, cur, origin, v, |v|, done, asked, now)
    ensures Swept(nodes, clients, cur, origin, v, done, now)
  {
    assert v[..|v|] == v && asked + [] == asked;
  }

  /** The loop of the four handlers that accept a change, at one reading of the clock. */
  method Sweep(nodes: seq<Addr>, pBeat: HB.HeartBeat, cur: int, origin: Addr)
    returns (mDataNodes: seq<Addr>, sent: seq<Addr>)
    requires pBeat.Valid()
    modifies pBeat
    ensures pBeat.Valid()
    ensures mDataNodes == Kept(nodes, HB.LiveIn(old(pBeat.clients), cur))
    ensures sent == Filter(Kept(nodes, HB.LiveIn(old(pBeat.clients), cur)), Passing(origin))
    ensures pBeat.clients == HB.AskedAll(old(pBeat.clients), Checked(nodes, HB.LiveIn(old(pBeat.clients), cur)), cur)
  {
    ghost var clients, asked, ended := pBeat.clients, [], false;
    mDataNodes, sent := nodes, [];
    var iter := 0;
    SweepBegins(nodes, clients, cur, origin);
    hide Sweeping;
    while iter != |mDataNodes|
      invariant iter <= |mDataNodes| && pBeat.Valid()
      invariant Sweeping(nodes, clients, cur, origin, mDataNodes, iter, sent, asked, pBeat.clients)
      decreases |mDataNodes| - iter
    {
      hide *;
      SweepGoesOn(nodes, clients, cur, origin, mDataNodes, iter, sent, asked, pBeat.clients);
      asked := asked + [mDataNodes[iter]];
      var live := pBeat.IsNodeAlive(mDataNodes[iter], cur);
      if !live {
        mDataNodes := RemoveAt(mDataNodes, iter);
        if iter == |mDataNodes| {
          ended := true;
          break;
        }
      }
      if Passes(origin, mDataNodes[iter]) {
        sent := sent + [mDataNodes[iter]];
      }
      iter := iter + 1;
    }
    if !ended { SweepEnds(nodes, clients, cur, origin, mDataNodes, sent, asked, pBeat.clients); }
  }

  class SQSMaster {
    const pLock: ML.MsgLock
    var mDataNodes: seq<Addr>
    const logger: SW.Shared
    const pQueue: SW.Shared
    const pBeat: HB.HeartBeat
    const pSyncWorker: SW.SyncWorker
    /** What dispatchMessage has sent, in order. */
    var sent: seq<Sent>

    ghost predicate Valid()
      reads this, pLock, pLock.chain, pLock.chain.nodes, pBeat, pSyncWorker
    {
      && pLock.Valid() && pBeat.Valid() && logger != pQueue
      && pSyncWorker.pQueue == pQueue && pSyncWorker.logger == logger
    }

    ghost function State(): MState
      reads this, logger, pQueue, pSyncWorker
    {
      MState(logger.items, pQueue.items, pSyncWorker.GateState(), mDataNodes)
    }

    constructor ()
      ensures Valid() && State() == START && sent == []
      ensures pLock.State() == ML.Locks([], []) && pLock.defaultTmout == 5000 && pBeat.clients == []
    {
      pLock := new ML.MsgLock(5000);
      pBeat := new HB.HeartBeat();
      var log := new SW.Shared();
      var queue := new SW.Shared();
      logger, pQueue := log, queue;
      pSyncWorker := new SW.SyncWorker(queue, log);
      mDataNodes, sent := [], [];
    }

    /** The joined nodes, and those the heartbeat has. */
    ghost function Members(): MB.State
      reads this, pBeat
    {
      MB.State(mDataNodes, pBeat.clients)
    }

    /** The create, delete and put branches of onDataNodeRecv: queue the command, then fan it out. */
    method OnChange(origin: Addr, c: Command, cur: int)
      requires Valid()
      modifies this, pQueue, pBeat
      ensures Valid()
      ensures State() == AcceptNext(old(State()), c, HB.LiveIn(old(pBeat.clients), cur))
      ensures pQueue.items == old(pQueue.items) + [c] && logger.items == old(logger.items)
      ensures pSyncWorker.GateState() == old(pSyncWorker.GateState())
      ensures sent == old(sent) + AcceptSends(old(State()), c, origin, HB.LiveIn(old(pBeat.clients), cur))
      ensures pBeat.clients
           == HB.AskedAll(old(pBeat.clients), Checked(old(mDataNodes), HB.LiveIn(old(pBeat.clients), cur)), cur)
      ensures Members() == MB.Next(old(Members()), MB.Changes(cur))
    {
      hide Kept, Filter, Checked, HB.AskedAll, ML.MsgLock.Valid;
      pQueue.items := pQueue.items + [c];
      var targets;
      mDataNodes, targets := Sweep(mDataNodes, pBeat, cur, origin);
      sent := sent + ToAll(targets, c);
    }

    /** The delete-message branch: as the others, and then the lease on the message is released. */
    method OnDeleteMessage(origin: Addr, queueName: string, msgId: int, cur: int)
      requires Valid()
      modifies this, pQueue, pBeat, pLock, pLock.chain, pLock.chain.Nodes()
      ensures Valid()
      ensures var c, alive := DeleteMessage(queueName, msgId), HB.LiveIn(old(pBeat.clients), cur);
              && State() == AcceptNext(old(State()), c, alive)
              && sent == old(sent) + AcceptSends(old(State()), c, origin, alive)
              && pBeat.clients == HB.AskedAll(old(pBeat.clients), Checked(old(mDataNodes), alive), cur)
      ensures pLock.State() == ML.DelNext(old(pLock.State()), pLock.defaultTmout, queueName, msgId)
    {
      OnChange(origin, DeleteMessage(queueName, msgId), cur);
      var _ := pLock.UnLock(queueName, msgId);
    }

    /** The get branch: true stands for the reply "Success". */
    method OnGet(queueName: string, msgId: int, cur: int) returns (success: bool)
      requires Valid()
      modifies pLock, pLock.chain, pLock.chain.Nodes()
      ensures Valid() && State() == old(State()) && sent == old(sent)
      ensures success <==> !ML.Exists(old(pLock.State()), queueName, msgId)
      ensures pLock.State() == ML.LockNext(old(pLock.State()), pLock.defaultTmout, queueName, msgId, cur)
    {
      success := pLock.Lock(queueName, msgId, cur);
    }

    /** The recovery branch. The gate is taken before the sizes are compared, and kept on an error. */
    method OnRecovery(n: Addr, logsize: int) returns (ok: bool)
      requires Valid()
      modifies this, pSyncWorker
      ensures Valid()
      ensures ok <==> logsize <= |old(State()).log|
      ensures State() == RecoverNext(old(State()), n)
      ensures sent == old(sent) + RecoverSends(old(State()), n, logsize)
      ensures pQueue.items == old(pQueue.items) && logger.items == old(logger.items) && mDataNodes == old(mDataNodes)
      ensures 0 <= logsize <= |logger.items| ==> sent == old(sent) + ToOne(n, logger.items[logsize..])
      ensures logsize < 0 ==> sent == old(sent) + ToOne(n, logger.items)
      ensures |logger.items| < logsize ==> sent == old(sent)
      ensures SW.GateOk(old(pSyncWorker.GateState())) ==>
                && SW.GateOk(pSyncWorker.GateState())
                && forall x :: x in pSyncWorker.locksVec <==> x in old(pSyncWorker.locksVec) || x == Tid(n)
    {
      pSyncWorker.IncrementLock(Tid(n));
      var sz := |logger.items| - logsize;
      if sz < 0 {
        return false;
      }
      var datas := Tail(logger.items, sz);
      var iter := 0;
      while iter != |datas|
        invariant iter <= |datas|
        invariant sent == old(sent) + ToOne(n, datas[..iter])
        invariant mDataNodes == old(mDataNodes) && Valid()
        invariant pSyncWorker.GateState() == SW.Incremented(old(pSyncWorker.GateState()), Tid(n))
        decreases |datas| - iter
      {
        assert ToOne(n, datas[..iter + 1]) == ToOne(n, datas[..iter]) + [Sent(n, datas[iter])];
        sent := sent + [Sent(n, datas[iter])];
        iter := iter + 1;
      }
      assert datas[..iter] == datas;
      return true;
    }

    /** The join branch. Its loop bound grows with every command sent and its index never moves, so it
        runs to the end of the queue. */
    method OnJoin(n: Addr, cur: int)
      requires Valid()
      modifies this, pBeat, pSyncWorker
      ensures Valid()
      ensures State() == JoinNext(old(State()), n)
      ensures sent == old(sent) + JoinSends(old(State()), n)
      ensures pQueue.items == old(pQueue.items) && logger.items == old(logger.items)
      ensures mDataNodes == old(mDataNodes) + [n] && sent == old(sent) + ToOne(n, pQueue.items)
      ensures SW.GateOk(old(pSyncWorker.GateState())) ==>
                && SW.GateOk(pSyncWorker.GateState())
                && forall x :: x in pSyncWorker.locksVec <==> x in old(pSyncWorker.locksVec) && x != Tid(n)
      ensures pBeat.clients == HB.Without(old(pBeat.clients), n) + [HB.Client(n, 1000 * cur, 10000)]
      ensures HB.Live(pBeat.clients, n, cur)
      ensures Members() == MB.Next(old(Members()), MB.Joins(n, cur))
    {
      hide SW.Decremented, SW.GateOk, HB.Without, ML.MsgLock.Valid;
      var sz := |pQueue.items|;
      mDataNodes := mDataNodes + [n];
      pBeat.AddDataNode(n, 10000, cur);
      var indx := 0;
      var iter := 0;
      while indx < sz && iter != |pQueue.items|
        invariant iter <= |pQueue.items| && indx == 0 && sz == |pQueue.items| + iter
        invariant sent == old(sent) + ToOne(n, pQueue.items[..iter])
        invariant mDataNodes == old(mDataNodes) + [n] && Valid() && pQueue.items == old(pQueue.items)
        invariant pBeat.clients == HB.Without(old(pBeat.clients), n) + [HB.Client(n, 1000 * cur, 10000)]
        invariant HB.Live(pBeat.clients, n, cur)
        invariant pSyncWorker.GateState() == old(pSyncWorker.GateState())
        decreases |pQueue.items| - iter
      {
        assert ToOne(n, pQueue.items[..iter + 1]) == ToOne(n, pQueue.items[..iter]) + [Sent(n, pQueue.items[iter])];
        sent := sent + [Sent(n, pQueue.items[iter])];
        sz := sz + 1;
        iter := iter + 1;
      }
      assert pQueue.items[..iter] == pQueue.items;
      pSyncWorker.DecrementLock(Tid(n));
    }
  }
}
