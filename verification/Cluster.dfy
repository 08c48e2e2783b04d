/** The master and its data nodes together: changes, crashes, restarts, recoveries and
    joins interleaved with the master's worker and timers. */
module Cluster {
  import opened Basics
  import opened Database
  import opened Commands
  import opened FanOut
  import opened Master
  import MR = MasterRuns

  /** A data node's log and store. */
  datatype Replica = Replica(log: seq<Command>, db: Tables)

  /** nodes are those that have ever been started, dead those that are down. */
  datatype State = State(run: MR.Run, nodes: map<Addr, Replica>, dead: set<Addr>)

  /** What the master does by itself. */
  type Work = a: MR.Step | a.FlushBegin? || a.FlushCopy? || a.FlushPop? || a.FlushEnd? || a.Timeout?
    witness MR.FlushBegin

  datatype Event =
    | Changes(node: Addr, change: Change)
    | Works(step: Work)
    | Starts(node: Addr)
    | Recovers(node: Addr)
    | Joins(node: Addr)
    | Dies(node: Addr)

  const INIT := State(MR.INIT, map[], {})

  const EMPTY := Replica([], map[])

  /** onMasterRecv on a sequence of messages: log, then store. */
  function Receive(r: Replica, cs: seq<Command>): Replica
    decreases |cs|
  {
    if cs == [] then r else Receive(Replica(r.log + [cs[0]], Apply(r.db, cs[0])), cs[1..])
  }

  /** What of a sequence of dispatches reaches one node, in order. */
  function Inbox(sent: seq<Sent>, n: Addr): seq<Command> {
    if sent == [] then [] else (if sent[0].to == n then [sent[0].command] else []) + Inbox(sent[1..], n)
  }

  function Deliver(nodes: map<Addr, Replica>, dead: set<Addr>, sent: seq<Sent>): map<Addr, Replica> {
    map n | n in nodes :: if n in dead then nodes[n] else Receive(nodes[n], Inbox(sent, n))
  }

  predicate Up(s: State, n: Addr) {
    n in s.nodes && n !in s.dead
  }

  /** A client's change at one node: the origin stores and logs it, the master accepts it and fans it out. */
  function ChangeNext(s: State, n: Addr, r: Change): State
    requires n in s.nodes
  {
    match Accepted(s.nodes[n].db, r)
    case None => s
    case Some(c) =>
      var origin := Replica(s.nodes[n].log + [c], Stored(s.nodes[n].db, r));
      State(MR.Next(s.run, MR.Accept(c, s.dead)),
            Deliver(s.nodes[n := origin], s.dead, AcceptSends(s.run.m, c, n, MR.Alive(s.dead))), s.dead)
  }

  /** A node starts for the first time, or starts again with the log it had. Clients may use it from now on. */
  function StartNode(s: State, n: Addr): State {
    State(s.run, s.nodes[n := Own(s, n)], s.dead - {n})
  }

  function Own(s: State, n: Addr): Replica {
    if n in s.nodes then s.nodes[n] else EMPTY
  }

  /** A node asks for recovery with the size of its log. */
  function RecoverNode(s: State, n: Addr): State
    requires n in s.nodes
  {
    var k := |s.nodes[n].log|;
    State(MR.Next(s.run, MR.Recover(n, k)), Deliver(s.nodes, s.dead, RecoverSends(s.run.m, n, k)), s.dead)
  }

  function JoinNode(s: State, n: Addr): State {
    State(MR.Next(s.run, MR.Join(n)), Deliver(s.nodes, s.dead, JoinSends(s.run.m, n)), s.dead)
  }

  /** One event. Only a node that is up does anything; and a recovery waits for the worker's mutex. */
  function Next(s: State, e: Event): State {
    match e
    case Changes(n, r) => if Up(s, n) then ChangeNext(s, n, r) else s
    case Works(a) => s.(run := MR.Next(s.run, a))
    case Starts(n) => StartNode(s, n)
    case Recovers(n) => if Up(s, n) && s.run.flush.Idle? then RecoverNode(s, n) else s
    case Joins(n) => if Up(s, n) then JoinNode(s, n) else s
    case Dies(n) => s.(dead := s.dead + {n})
  }

  lemma {:induction false} ReceiveLog(r: Replica, cs: seq<Command>)
    requires r.db == Replay(r.log)
    ensures Receive(r, cs) == Replica(r.log + cs, Replay(r.log + cs))
    decreases |cs|
  {
    if cs == [] {
      assert r.log + cs == r.log;
    } else {
      ReplaySnoc(r.log, cs[0]);
      ReceiveLog(Replica(r.log + [cs[0]], Apply(r.db, cs[0])), cs[1..]);
      assert r.log + [cs[0]] + cs[1..] == r.log + cs;
    }
  }

  lemma {:induction false} InboxToOne(to: Addr, cs: seq<Command>, n: Addr)
    ensures Inbox(ToOne(to, cs), n) == if n == to then cs else []
  {
    if cs != [] {
      assert ToOne(to, cs)[1..] == ToOne(to, cs[1..]);
      InboxToOne(to, cs[1..], n);
    }
  }

  /** k copies of a command. */
  function Times(c: Command, k: nat): (cs: seq<Command>)
    ensures |cs| == k
    ensures forall i :: 0 <= i < k ==> cs[i] == c
  {
    seq(k, i => c)
  }

  lemma {:induction false} InboxToAll(ns: seq<Addr>, c: Command, n: Addr)
    ensures Inbox(ToAll(ns, c), n) == Times(c, multiset(ns)[n])
  {
    if ns != [] {
      assert ToAll(ns, c)[1..] == ToAll(ns[1..], c);
      InboxToAll(ns[1..], c, n);
      HeadCount(ns, n);
    }
  }

  /** A change accepted from any node is sent to a node that is up as often as that is listed, or, if it
      shares the origin's name or port, not at all. */
  lemma FanOutSends(m: MState, c: Command, origin: Addr, dead: set<Addr>, n: Addr)
    requires n !in dead
    ensures Inbox(AcceptSends(m, c, origin, MR.Alive(dead)), n)
         == Times(c, if Passes(origin, n) then multiset(m.listed)[n] else 0)
  {
    var alive := MR.Alive(dead);
    KeptCount(m.listed, alive, n);
    FilterCount(Kept(m.listed, alive), Passing(origin), n);
    InboxToAll(Filter(Kept(m.listed, alive), Passing(origin)), c, n);
  }

  /** No other listed node shares n's name or its port. */
  ghost predicate Apart(n: Addr, ns: seq<Addr>) {
    forall x :: x in ns && x != n ==> x.name != n.name && x.port != n.port
  }

  ghost predicate DistinctAddrs(ns: seq<Addr>) {
    forall i, j :: 0 <= i < j < |ns| ==> ns[i].name != ns[j].name && ns[i].port != ns[j].port
  }

  lemma {:induction false} DistinctOnce(ns: seq<Addr>, n: Addr)
    requires DistinctAddrs(ns)
    ensures multiset(ns)[n] == if n in ns then 1 else 0
  {
    if ns != [] {
      DistinctOnce(ns[1..], n);
      HeadCount(ns, n);
      assert n in ns <==> n == ns[0] || n in ns[1..];
    }
  }

  /** So with distinct addresses a change reaches every other listed node that is up, exactly once, and no other. */
  lemma FanOutReaches(m: MState, c: Command, origin: Addr, dead: set<Addr>, n: Addr)
    requires DistinctAddrs(m.listed) && Apart(origin, m.listed) && n !in dead
    ensures Inbox(AcceptSends(m, c, origin, MR.Alive(dead)), n) == if n in m.listed && n != origin then [c] else []
  {
    hide DistinctAddrs, AcceptSends;
    FanOutSends(m, c, origin, dead, n);
    DistinctOnce(m.listed, n);
    assert Times(c, 0) == [] && Times(c, 1) == [c];
  }

  /** What a dispatch does to the nodes: one that is up appends its inbox to its log and replays it. */
  lemma DeliverOne(nodes: map<Addr, Replica>, dead: set<Addr>, sent: seq<Sent>, n: Addr)
    requires n in nodes && nodes[n].db == Replay(nodes[n].log)
    ensures n in Deliver(nodes, dead, sent)
    ensures Grew(nodes[n], Deliver(nodes, dead, sent)[n], if n in dead then [] else Inbox(sent, n))
  {
    if n in dead {
      assert nodes[n].log + [] == nodes[n].log;
    } else {
      ReceiveLog(nodes[n], Inbox(sent, n));
    }
  }

  /** A node has logged more commands and replayed them. */
  ghost predicate Grew(before: Replica, after: Replica, more: seq<Command>) {
    after == Replica(before.log + more, Replay(before.log + more))
  }

  lemma OriginReplays(own: Replica, r: Change, c: Command)
    requires own.db == Replay(own.log) && Accepted(own.db, r) == Some(c)
    ensures Stored(own.db, r) == Replay(own.log + [c])
  {
    ReplayOk(own.log);
    StoredIsReplayed(own.db, r);
    ReplaySnoc(own.log, c);
  }

  /** What holds in every state of every run: the master's own invariant, and every store is the replay of its log. */
  ghost predicate Sound(s: State) {
    MR.Ok(s.run) && forall n :: n in s.nodes ==> s.nodes[n].db == Replay(s.nodes[n].log)
  }

  /** What the event adds to the log of node x. */
  function Added(s: State, e: Event, x: Addr): seq<Command> {
    if !Up(s, x) then []
    else
      match e
      case Changes(n, r) =>
        if !Up(s, n) || Accepted(s.nodes[n].db, r).None? then []
        else Times(Accepted(s.nodes[n].db, r).value,
                   if x == n then 1 else if Passes(n, x) then multiset(s.run.m.listed)[x] else 0)
      case Recovers(n) => if x == n && s.run.flush.Idle? then Missing(s.run.m.log, |s.nodes[n].log|) else []
      case Joins(n) => if x == n then s.run.m.queue else []
      case _ => []
  }

  /** What a recovery sends to a node with k commands. */
  function Missing(log: seq<Command>, k: nat): seq<Command> {
    if k <= |log| then log[k..] else []
  }

  /** An accepted change as a dispatch to nodes of which the origin has logged and replayed its command. */
  lemma ChangeDelivers(s: State, n: Addr, r: Change, c: Command)
    requires Sound(s) && n in s.nodes && Accepted(s.nodes[n].db, r) == Some(c)
    ensures var log := s.nodes[n].log + [c];
            ChangeNext(s, n, r).nodes == Deliver(s.nodes[n := Replica(log, Replay(log))], s.dead,
                                                 AcceptSends(s.run.m, c, n, MR.Alive(s.dead)))
  {
    hide Deliver, AcceptSends, MR.Next, Replay;
    OriginReplays(s.nodes[n], r, c);
  }

  lemma ChangeAdds(s: State, n: Addr, r: Change, x: Addr)
    requires Sound(s) && Up(s, n) && x in s.nodes
    ensures x in ChangeNext(s, n, r).nodes
    ensures Grew(s.nodes[x], ChangeNext(s, n, r).nodes[x], Added(s, Changes(n, r), x))
  {
    assert s.nodes[x].log + [] == s.nodes[x].log && s.nodes[x].db == Replay(s.nodes[x].log);
    if Accepted(s.nodes[n].db, r).Some? {
      hide Deliver, Replay, AcceptSends, Sound, Accepted, ChangeNext;
      var c := Accepted(s.nodes[n].db, r).value;
      var log, sent := s.nodes[n].log + [c], AcceptSends(s.run.m, c, n, MR.Alive(s.dead));
      ChangeDelivers(s, n, r, c);
      DeliverOne(s.nodes[n := Replica(log, Replay(log))], s.dead, sent, x);
      if x !in s.dead { FanOutSends(s.run.m, c, n, s.dead, x); }
      assert log + [] == log && Times(c, 0) == [] && Times(c, 1) == [c];
    }
  }

  lemma ToOneAdds(s: State, to: Addr, cs: seq<Command>, x: Addr)
    requires Sound(s) && Up(s, to) && x in s.nodes
    ensures x in Deliver(s.nodes, s.dead, ToOne(to, cs))
    ensures Grew(s.nodes[x], Deliver(s.nodes, s.dead, ToOne(to, cs))[x], if x == to then cs else [])
  {
    hide Deliver, MR.Ok, Replay;
    DeliverOne(s.nodes, s.dead, ToOne(to, cs), x);
    InboxToOne(to, cs, x);
  }

  lemma RecoverySends(m: MState, n: Addr, k: nat)
    ensures RecoverSends(m, n, k) == ToOne(n, Missing(m.log, k))
  {
  }

  /** What any event does to any node: its log grows by what the event adds, and its store is the replay of it. */
  lemma LogGrows(s: State, e: Event, x: Addr)
    requires Sound(s) && x in s.nodes
    ensures x in Next(s, e).nodes && Grew(s.nodes[x], Next(s, e).nodes[x], Added(s, e, x))
  {
    assert s.nodes[x].log + [] == s.nodes[x].log && s.nodes[x].db == Replay(s.nodes[x].log);
    hide Sound, Deliver, Replay, ChangeNext, MR.Next;
    match e
    case Changes(n, r) => if Up(s, n) { ChangeAdds(s, n, r, x); }
    case Recovers(n) =>
      if Up(s, n) {
        RecoverySends(s.run.m, n, |s.nodes[n].log|);
        ToOneAdds(s, n, Missing(s.run.m.log, |s.nodes[n].log|), x);
      }
    case Joins(n) => if Up(s, n) { ToOneAdds(s, n, s.run.m.queue, x); }
    case _ =>
  }

  /** What a node that starts has, and what a crash does. */
  lemma StartsAndDies(s: State, n: Addr)
    ensures var t := Next(s, Starts(n));
            && n in t.nodes && n !in t.dead && t.nodes[n] == (if n in s.nodes then s.nodes[n] else Replica([], map[]))
            && t.run == s.run && t.nodes.Keys == s.nodes.Keys + {n}
            && forall x :: x != n ==> (x in t.dead <==> x in s.dead) && (x in s.nodes ==> t.nodes[x] == s.nodes[x])
    ensures var t := Next(s, Dies(n));
            && n in t.dead && t.run == s.run && t.nodes == s.nodes
            && forall x :: x != n ==> (x in t.dead <==> x in s.dead)
  {
  }

  lemma NextSound(s: State, e: Event)
    requires Sound(s)
    ensures Sound(Next(s, e))
  {
    var t := Next(s, e);
    NextRunOk(s, e);
    forall x | x in t.nodes
      ensures t.nodes[x].db == Replay(t.nodes[x].log)
    {
      if x in s.nodes {
        hide Sound, Next, Added;
        LogGrows(s, e, x);
      } else {
        hide Sound, ChangeNext;
        NewIsEmpty(s, e, x);
      }
    }
  }

  lemma NextRunOk(s: State, e: Event)
    requires Sound(s)
    ensures MR.Ok(Next(s, e).run)
  {
    hide MR.Next, MR.Ok, Deliver;
    match e
    case Changes(n, r) => if Up(s, n) && Accepted(s.nodes[n].db, r).Some? {
        MR.NextOk(s.run, MR.Accept(Accepted(s.nodes[n].db, r).value, s.dead));
      }
    case Works(a) => MR.NextOk(s.run, a);
    case Recovers(n) => if Up(s, n) { MR.NextOk(s.run, MR.Recover(n, |s.nodes[n].log|)); }
    case Joins(n) => MR.NextOk(s.run, MR.Join(n));
    case _ =>
  }

  lemma NewIsEmpty(s: State, e: Event, x: Addr)
    requires x in Next(s, e).nodes && x !in s.nodes
    ensures Next(s, e).nodes[x] == EMPTY && e == Starts(x)
  {
  }

  /** Every listed node that is up has the whole history as its log. */
  ghost predicate Agreed(s: State) {
    forall x :: x in s.run.m.listed && x !in s.dead ==> x in s.nodes && s.nodes[x].log == s.run.accepted
  }

  /** A node's log is a beginning of the history, and ends where the queue begins. */
  ghost predicate MayJoin(s: State, n: Addr)
    requires n in s.nodes
  {
    s.nodes[n].log <= s.run.accepted && |s.nodes[n].log| == MR.Popped(s.run)
  }

  /** A change at n goes once to each listed node that is up: each is listed once, and none but n itself
      shares n's name or port. */
  ghost predicate ReachesAll(s: State, n: Addr) {
    forall x :: x in s.run.m.listed && x !in s.dead && x != n ==> Passes(n, x) && multiset(s.run.m.listed)[x] == 1
  }

  /** What an event must meet for the nodes to agree after it: a change reaches all, a node that is still
      listed starts again only if it has missed nothing, and a node that joins may join. */
  ghost predicate Harmless(s: State, e: Event) {
    match e
    case Changes(n, r) => Up(s, n) && Accepted(s.nodes[n].db, r).Some? ==> ReachesAll(s, n)
    case Starts(n) => n in s.run.m.listed ==> Own(s, n).log == s.run.accepted
    case Joins(n) => Up(s, n) ==> MayJoin(s, n)
    case _ => true
  }

  /** What a change does to the history and the list. */
  lemma ChangeMaster(s: State, n: Addr, r: Change, c: Command)
    requires n in s.nodes && Accepted(s.nodes[n].db, r) == Some(c)
    ensures var t := ChangeNext(s, n, r);
            && t.run.accepted == s.run.accepted + [c] && t.dead == s.dead && t.nodes.Keys == s.nodes.Keys
            && (forall x :: x in t.run.m.listed ==> x in s.run.m.listed)
            && (forall x :: x in s.run.m.listed && x !in s.dead ==> x in t.run.m.listed)
  {
    KeptMembers(s.run.m.listed, MR.Alive(s.dead));
  }

  /** Exactly when a change keeps one listed node that is up at the end of the history. */
  lemma ChangeAgreesAt(s: State, n: Addr, r: Change, c: Command, x: Addr)
    requires Sound(s) && Up(s, n) && Accepted(s.nodes[n].db, r) == Some(c) && Up(s, x)
    requires s.nodes[x].log == s.run.accepted
    ensures x in ChangeNext(s, n, r).nodes
    ensures ChangeNext(s, n, r).nodes[x].log == s.run.accepted + [c]
       <==> x == n || (Passes(n, x) && multiset(s.run.m.listed)[x] == 1)
  {
    hide Sound, ChangeNext, Accepted, Passes;
    ChangeAdds(s, n, r, x);
    CopiesComplete(s.run.accepted, c, |Added(s, Changes(n, r), x)|);
  }

  lemma CopiesComplete(log: seq<Command>, c: Command, k: nat)
    ensures log + Times(c, k) == log + [c] <==> k == 1
  {
    assert |log + Times(c, k)| == |log| + k;
    assert Times(c, 1) == [c];
  }

  lemma ChangeAgreesExactly(s: State, n: Addr, r: Change)
    requires Sound(s) && Agreed(s) && Up(s, n)
    ensures Agreed(ChangeNext(s, n, r)) <==> Accepted(s.nodes[n].db, r).Some? ==> ReachesAll(s, n)
  {
    if Accepted(s.nodes[n].db, r).Some? {
      var t, c := ChangeNext(s, n, r), Accepted(s.nodes[n].db, r).value;
      hide Sound, ChangeNext, Accepted, Passes;
      ChangeMaster(s, n, r, c);
      forall x | x in s.run.m.listed && x !in s.dead
        ensures x in t.nodes
        ensures t.nodes[x].log == t.run.accepted <==> x == n || (Passes(n, x) && multiset(s.run.m.listed)[x] == 1)
      {
        ChangeAgreesAt(s, n, r, c, x);
      }
    }
  }

  lemma RecoverAgrees(s: State, n: Addr)
    requires Sound(s) && Agreed(s) && Up(s, n) && s.run.flush.Idle?
    ensures Agreed(RecoverNode(s, n))
  {
    var t := RecoverNode(s, n);
    MR.QueueIsTail(s.run);
    assert t.run.accepted == s.run.accepted && t.run.m.listed == s.run.m.listed && t.dead == s.dead;
    RecoverySends(s.run.m, n, |s.nodes[n].log|);
    assert t.nodes == Deliver(s.nodes, s.dead, ToOne(n, Missing(s.run.m.log, |s.nodes[n].log|)));
    hide RecoverNode, Deliver, Sound, Replay;
    forall x | x in s.run.m.listed && x !in s.dead
      ensures x in t.nodes && t.nodes[x].log == s.run.accepted
    {
      ToOneAdds(s, n, Missing(s.run.m.log, |s.nodes[n].log|), x);
      assert s.nodes[x].log + [] == s.nodes[x].log;
    }
  }

  /** The queue completes the log of a node exactly if that is a beginning of the history with as many
      commands as the worker has popped. */
  lemma QueueCompletesExactly(s: State, n: Addr)
    requires Sound(s) && n in s.nodes
    ensures s.nodes[n].log + s.run.m.queue == s.run.accepted <==> MayJoin(s, n)
  {
    MR.QueueIsTail(s.run);
    var log, all, k := s.nodes[n].log, s.run.accepted, MR.Popped(s.run);
    if log + s.run.m.queue == all { assert log == all[..k]; }
    if log <= all && |log| == k { assert log == all[..k] && all[..k] + all[k..] == all; }
  }

  /** Exactly when a join gives a node the whole history, whatever has become of its recovery and its gate
      entry, and whether or not it is listed already. Otherwise it misses commands, or logs some twice. */
  lemma JoinCompletesExactly(s: State, n: Addr)
    requires Sound(s) && Up(s, n)
    ensures n in JoinNode(s, n).nodes
    ensures JoinNode(s, n).nodes[n].log == s.run.accepted
       <==> s.nodes[n].log <= s.run.accepted && |s.nodes[n].log| == MR.Popped(s.run)
  {
    assert JoinNode(s, n).nodes == Deliver(s.nodes, s.dead, ToOne(n, s.run.m.queue));
    hide JoinNode, Deliver, Sound;
    QueueCompletesExactly(s, n);
    ToOneAdds(s, n, s.run.m.queue, n);
  }

  lemma JoinAgreesExactly(s: State, n: Addr)
    requires Sound(s) && Agreed(s) && Up(s, n)
    ensures Agreed(JoinNode(s, n)) <==> MayJoin(s, n)
  {
    var t := JoinNode(s, n);
    JoinCompletesExactly(s, n);
    assert t.run.accepted == s.run.accepted && t.run.m.listed == s.run.m.listed + [n] && t.dead == s.dead;
    assert t.nodes == Deliver(s.nodes, s.dead, ToOne(n, s.run.m.queue));
    hide JoinNode, Deliver, Sound, Replay;
    forall x | x in s.run.m.listed && x !in s.dead && x != n
      ensures x in t.nodes && t.nodes[x].log == s.run.accepted
    {
      ToOneAdds(s, n, s.run.m.queue, x);
      assert s.nodes[x].log + [] == s.nodes[x].log;
    }
    assert n in t.run.m.listed;
  }

  lemma WorkAgrees(s: State, a: Work)
    requires Agreed(s)
    ensures Agreed(Next(s, Works(a)))
  {
  }

  /** Exactly which events leave the nodes in agreement. */
  lemma StepAgreesExactly(s: State, e: Event)
    requires Sound(s) && Agreed(s)
    ensures Agreed(Next(s, e)) <==> Harmless(s, e)
  {
    hide Sound, ChangeNext, RecoverNode, JoinNode, MR.Next;
    match e
    case Changes(n, r) => if Up(s, n) { hide Agreed; ChangeAgreesExactly(s, n, r); }
    case Works(a) => WorkAgrees(s, a);
    case Recovers(n) => if Up(s, n) && s.run.flush.Idle? { hide Agreed; RecoverAgrees(s, n); }
    case Joins(n) => if Up(s, n) { hide Agreed; JoinAgreesExactly(s, n); }
    case Starts(n) => StartAgreesExactly(s, n);
    case Dies(n) =>
  }

  lemma StartAgreesExactly(s: State, n: Addr)
    requires Agreed(s)
    ensures Agreed(StartNode(s, n)) <==> n in s.run.m.listed ==> Own(s, n).log == s.run.accepted
  {
    var t := StartNode(s, n);
    assert n in t.nodes && n !in t.dead && t.nodes[n] == Own(s, n);
  }

  function After(events: seq<Event>, n: nat): State
    requires n <= |events|
  {
    if n == 0 then INIT else Next(After(events, n - 1), events[n - 1])
  }

  lemma {:induction false} RunSound(events: seq<Event>, n: nat)
    requires n <= |events|
    ensures Sound(After(events, n))
  {
    if n > 0 {
      hide Sound, Next;
      RunSound(events, n - 1);
      NextSound(After(events, n - 1), events[n - 1]);
    }
  }

  /** Each of the first n events is harmless when it happens. */
  ghost predicate HarmlessThrough(events: seq<Event>, n: nat)
    requires n <= |events|
  {
    n == 0 || (HarmlessThrough(events, n - 1) && Harmless(After(events, n - 1), events[n - 1]))
  }

  ghost predicate AgreedThrough(events: seq<Event>, n: nat)
    requires n <= |events|
  {
    (n == 0 || AgreedThrough(events, n - 1)) && Agreed(After(events, n))
  }

  /** Replica agreement, for every run at all: the joined nodes that are up have the whole history
      throughout the run if and only if every event in it was harmless when it happened. */
  lemma {:induction false} RunAgreesExactly(events: seq<Event>, n: nat)
    requires n <= |events|
    ensures AgreedThrough(events, n) <==> HarmlessThrough(events, n)
  {
    if n == 0 {
      assert Agreed(INIT);
    } else {
      hide Agreed, Harmless, Next, Sound;
      RunAgreesExactly(events, n - 1);
      RunSound(events, n - 1);
      if AgreedThrough(events, n - 1) {
        assert Agreed(After(events, n - 1));
        StepAgreesExactly(After(events, n - 1), events[n - 1]);
      }
    }
  }

  /** After a run of harmless events, any two joined nodes that are up have the same log, the whole history,
      and the same store, its replay. */
  lemma {:induction false} ReplicasAgree(events: seq<Event>, n: nat, a: Addr, b: Addr)
    requires n <= |events| && HarmlessThrough(events, n)
    requires a in After(events, n).run.m.listed && a !in After(events, n).dead
    requires b in After(events, n).run.m.listed && b !in After(events, n).dead
    ensures var s := After(events, n);
            && a in s.nodes && b in s.nodes
            && s.nodes[a] == s.nodes[b] == Replica(s.run.accepted, Replay(s.run.accepted))
  {
    hide Next, HarmlessThrough;
    RunAgreesExactly(events, n);
    RunSound(events, n);
    assert AgreedThrough(events, n);
  }

  /** A node logs a command of a client of its own although another one comes next in the history. */
  ghost predicate TooEarly(s: State, e: Event, b: Addr) {
    && e.Changes? && e.node == b && Up(s, b) && Accepted(s.nodes[b].db, e.change).Some?
    && |s.nodes[b].log| < |s.run.accepted|
    && s.run.accepted[|s.nodes[b].log|] != Accepted(s.nodes[b].db, e.change).value
  }

  /** A node's log is a beginning of the history. */
  ghost predicate Behind(s: State, b: Addr) {
    b in s.nodes ==> s.nodes[b].log <= s.run.accepted
  }

  /** Exactly when a node's own client leaves its log a beginning of the history: when the node has the
      whole history, or the command is the one the history has next. */
  lemma OwnChangeBehindExactly(s: State, n: Addr, r: Change, c: Command)
    requires Sound(s) && Up(s, n) && s.nodes[n].log <= s.run.accepted && Accepted(s.nodes[n].db, r) == Some(c)
    ensures n in ChangeNext(s, n, r).nodes
    ensures var k := |s.nodes[n].log|;
            ChangeNext(s, n, r).nodes[n].log <= ChangeNext(s, n, r).run.accepted
            <==> k == |s.run.accepted| || s.run.accepted[k] == c
  {
    ChangeMaster(s, n, r, c);
    hide Sound, ChangeNext, Accepted, Replay;
    ChangeAdds(s, n, r, n);
    BeginningExactly(s.nodes[n].log, s.run.accepted, c);
    assert Times(c, 1) == [c];
  }

  lemma BeginningExactly(log: seq<Command>, all: seq<Command>, c: Command)
    requires log <= all
    ensures log + [c] <= all + [c] <==> |log| == |all| || all[|log|] == c
  {
    if |log| < |all| { assert (log + [c])[|log|] == c && (all + [c])[|log|] == all[|log|]; }
  }

  /** In agreement, a harmless event takes a node's log off the history exactly if the node serves a client
      of its own too early. */
  lemma StaysBehindExactly(s: State, e: Event, b: Addr)
    requires Sound(s) && Agreed(s) && Harmless(s, e) && b in s.nodes && Behind(s, b)
    ensures Behind(Next(s, e), b) <==> !TooEarly(s, e, b)
  {
    hide Sound, Agreed, Harmless, Behind, Next, TooEarly;
    if e.Changes? { ChangeStaysBehind(s, e.node, e.change, b); } else { OthersStayBehind(s, e, b); }
  }

  lemma OthersStayBehind(s: State, e: Event, b: Addr)
    requires Sound(s) && Harmless(s, e) && b in s.nodes && Behind(s, b) && !e.Changes?
    ensures Behind(Next(s, e), b) && !TooEarly(s, e, b)
  {
    LogGrows(s, e, b);
    SameHistory(s, e);
    AddedFits(s, e, b);
    hide Sound, Harmless, Next, Added, Replay;
  }

  lemma SameHistory(s: State, e: Event)
    requires !e.Changes?
    ensures Next(s, e).run.accepted == s.run.accepted
  {
  }

  lemma AddedFits(s: State, e: Event, b: Addr)
    requires Sound(s) && Harmless(s, e) && b in s.nodes && Behind(s, b) && !e.Changes?
    ensures s.nodes[b].log + Added(s, e, b) <= s.run.accepted
  {
    var log := s.nodes[b].log;
    assert log + [] == log;
    if e == Recovers(b) { RecoverFits(s.run, log); }
    if e == Joins(b) && Up(s, b) { QueueCompletesExactly(s, b); }
  }

  lemma RecoverFits(r: MR.Run, log: seq<Command>)
    requires MR.Ok(r) && log <= r.accepted
    ensures log + Missing(r.m.log, |log|) <= r.accepted
  {
    MR.QueueIsTail(r);
    if |log| <= |r.m.log| { assert log + r.m.log[|log|..] == r.m.log; } else { assert log + [] == log; }
  }

  lemma ChangeStaysBehind(s: State, n: Addr, r: Change, b: Addr)
    requires Sound(s) && Agreed(s) && Harmless(s, Changes(n, r)) && b in s.nodes && Behind(s, b)
    ensures Behind(Next(s, Changes(n, r)), b) <==> !TooEarly(s, Changes(n, r), b)
  {
    hide Sound, ChangeNext, Replay, Accepted;
    if Up(s, n) && Accepted(s.nodes[n].db, r).Some? {
      var c := Accepted(s.nodes[n].db, r).value;
      ChangeMaster(s, n, r, c);
      if b == n {
        OwnChangeBehindExactly(s, n, r, c);
      } else {
        ChangeAdds(s, n, r, b);
        assert s.nodes[b].log + [] == s.nodes[b].log;
        assert Times(c, 0) == [] && Times(c, 1) == [c];
      }
    } else {
      RefusedChanges(s, n, r);
    }
  }

  lemma RefusedChanges(s: State, n: Addr, r: Change)
    requires Up(s, n) ==> Accepted(s.nodes[n].db, r).None?
    ensures Next(s, Changes(n, r)) == s
  {
  }

  ghost predicate BehindThrough(events: seq<Event>, n: nat, b: Addr)
    requires n <= |events|
  {
    (n == 0 || BehindThrough(events, n - 1, b)) && Behind(After(events, n), b)
  }

  ghost predicate NeverEarly(events: seq<Event>, n: nat, b: Addr)
    requires n <= |events|
  {
    n == 0 || (NeverEarly(events, n - 1, b) && !TooEarly(After(events, n - 1), events[n - 1], b))
  }

  /** While the joined nodes agree, the log of any node, joined or not, up or not, is a beginning of the
      history throughout a run if and only if the node has never served a client too early. */
  lemma {:induction false} BehindExactly(events: seq<Event>, n: nat, b: Addr)
    requires n <= |events| && HarmlessThrough(events, n)
    ensures BehindThrough(events, n, b) <==> NeverEarly(events, n, b)
  {
    if n > 0 {
      hide Agreed, Harmless, Next, Sound, Behind, TooEarly;
      BehindExactly(events, n - 1, b);
      RunAgreesExactly(events, n - 1);
      RunSound(events, n - 1);
      var s, e := After(events, n - 1), events[n - 1];
      assert AgreedThrough(events, n - 1) && Agreed(s);
      if b !in s.nodes {
        NewIsBehind(s, e, b);
      } else if Behind(s, b) {
        StaysBehindExactly(s, e, b);
      }
    } else {
      assert Behind(INIT, b);
    }
  }

  lemma NewIsBehind(s: State, e: Event, b: Addr)
    requires b !in s.nodes
    ensures Behind(Next(s, e), b) && !TooEarly(s, e, b)
  {
    hide ChangeNext;
    if b in Next(s, e).nodes { NewIsEmpty(s, e, b); }
  }
}
