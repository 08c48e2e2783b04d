/** How nodes join: what the gate ensures, when a whole run goes as it is meant to, and
    runs in which a join goes wrong. */
module Joining {
  import opened Basics
  import opened Commands
  import opened FanOut
  import SW = SyncWorker
  import opened Master
  import MR = MasterRuns
  import opened Cluster

  /** A node that is not joined has exactly the master's log, and holds the gate. */
  ghost predicate Ready(s: State, n: Addr) {
    && Up(s, n) && n !in s.run.m.listed
    && s.nodes[n].log == s.run.m.log && Tid(n) in s.run.m.gate.ids
  }

  /** A ready node may join: the gate keeps the worker away, so the queue begins where the log ends. */
  lemma ReadyMayJoin(s: State, n: Addr)
    requires Sound(s) && Ready(s, n)
    ensures MayJoin(s, n)
  {
    assert s.run.accepted == s.run.m.log + MR.Pending(s.run);
  }

  lemma MissingCompletesExactly(log: seq<Command>, own: seq<Command>)
    ensures own + Missing(log, |own|) == log <==> own <= log
  {
    if |own| <= |log| { assert log == log[..|own|] + log[|own|..]; }
  }

  /** Exactly when a recovery makes a node ready: when its log is a beginning of the master's. */
  lemma RecoveryReadiesExactly(s: State, n: Addr)
    requires Sound(s) && Up(s, n) && n !in s.run.m.listed && s.run.flush.Idle?
    ensures Ready(RecoverNode(s, n), n) <==> s.nodes[n].log <= s.run.m.log
  {
    var k := |s.nodes[n].log|;
    RecoverySends(s.run.m, n, k);
    SW.IncrementKeeps(s.run.m.gate, Tid(n));
    assert RecoverNode(s, n).nodes == Deliver(s.nodes, s.dead, ToOne(n, Missing(s.run.m.log, k)));
    assert RecoverNode(s, n).run.m == RecoverNext(s.run.m, n);
    hide Deliver, Sound, SW.Incremented;
    ToOneAdds(s, n, Missing(s.run.m.log, k), n);
    MissingCompletesExactly(s.run.m.log, s.nodes[n].log);
  }

  predicate Concerns(e: Event, n: Addr) {
    !e.Works? && e.node == n
  }

  /** A node that still holds the gate stays ready, whatever the others, the worker and the timers do. */
  lemma ReadyStays(s: State, e: Event, n: Addr)
    requires Sound(s) && Ready(s, n) && !Concerns(e, n) && Tid(n) in Next(s, e).run.m.gate.ids
    ensures Ready(Next(s, e), n)
  {
    LogGrows(s, e, n);
    AddsNothing(s, e, n);
    MasterStays(s, e, n);
    assert s.nodes[n].log + [] == s.nodes[n].log;
    hide Sound, Next, Replay, Added;
  }

  lemma AddsNothing(s: State, e: Event, n: Addr)
    requires Up(s, n) && n !in s.run.m.listed && !Concerns(e, n)
    ensures Added(s, e, n) == []
  {
  }

  lemma MasterStays(s: State, e: Event, n: Addr)
    requires Sound(s) && Ready(s, n) && !Concerns(e, n)
    ensures Next(s, e).run.m.log == s.run.m.log && n !in Next(s, e).run.m.listed && n !in Next(s, e).dead
  {
    hide Deliver, Replay;
    match e
    case Changes(o, r) =>
      if Up(s, o) && Accepted(s.nodes[o].db, r).Some? { KeptMembers(s.run.m.listed, MR.Alive(s.dead)); }
    case Works(a) => MR.GateHoldsFlush(s.run, a);
    case _ =>
  }

  /** From a recovery of a node whose log is a beginning of the master's, for as long as the node keeps its place
      at the gate and has no event of its own, it may join. */
  lemma {:induction false} ReadyWhileHeld(events: seq<Event>, i: nat, j: nat, n: Addr)
    requires i < j <= |events| && events[i] == Recovers(n)
    requires var s := After(events, i);
             Up(s, n) && n !in s.run.m.listed && s.run.flush.Idle? && s.nodes[n].log <= s.run.m.log
    requires forall k :: i < k < j ==> !Concerns(events[k], n)
    requires forall k :: i < k <= j ==> Tid(n) in After(events, k).run.m.gate.ids
    ensures Ready(After(events, j), n) && MayJoin(After(events, j), n)
  {
    hide Sound, Ready, MayJoin, RecoverNode, MR.Next, Deliver;
    RunSound(events, j - 1);
    RunSound(events, j);
    var s, e := After(events, j - 1), events[j - 1];
    assert After(events, j) == Next(s, e);
    if i + 1 < j {
      ReadyWhileHeld(events, i, j - 1, n);
      hide Next;
      ReadyStays(s, e, n);
    } else {
      RecoveryReadiesExactly(s, n);
    }
    ReadyMayJoin(After(events, j), n);
  }

  /** One event leaves the gate entry of a name in place, unless it is a join of a node of that gate name or a
      timer for it; and a recovery puts it there. */
  lemma EntryAfter(s: State, e: Event, x: string)
    requires Sound(s)
    requires e.Joins? ==> Tid(e.node) != x
    requires e != Works(MR.Timeout(x))
    ensures x in s.run.m.gate.ids ==> x in Next(s, e).run.m.gate.ids
    ensures e.Recovers? && Up(s, e.node) && s.run.flush.Idle? && Tid(e.node) == x ==> x in Next(s, e).run.m.gate.ids
  {
    hide MR.Next, MR.Ok, Deliver;
    match e
    case Changes(n, r) =>
      if Up(s, n) && Accepted(s.nodes[n].db, r).Some? {
        MR.GateEntries(s.run, MR.Accept(Accepted(s.nodes[n].db, r).value, s.dead), x);
      }
    case Works(a) => MR.GateEntries(s.run, a, x);
    case Recovers(n) => if Up(s, n) { MR.GateEntries(s.run, MR.Recover(n, |s.nodes[n].log|), x); }
    case Joins(n) => MR.GateEntries(s.run, MR.Join(n), x);
    case _ =>
  }

  lemma {:induction false} EntryStays(events: seq<Event>, i: nat, j: nat, n: Addr)
    requires i < j <= |events| && events[i] == Recovers(n)
    requires Up(After(events, i), n) && After(events, i).run.flush.Idle?
    requires forall k :: i < k < j ==> !(events[k].Joins? && Tid(events[k].node) == Tid(n))
    requires forall k :: i < k < j ==> events[k] != Works(MR.Timeout(Tid(n)))
    ensures Tid(n) in After(events, j).run.m.gate.ids
  {
    hide Next, Sound;
    RunSound(events, j - 1);
    if i + 1 < j { EntryStays(events, i, j - 1, n); }
    EntryAfter(After(events, j - 1), events[j - 1], Tid(n));
  }

  /** The gate at work, in any run at all: from a recovery of a node whose log is a beginning of the master's, the
      node may join, and has the whole history if it does, as long as it has had no event of its own, no node of its
      gate name has joined, and no timer for that name has fired. What the others and the worker do makes no
      difference. */
  lemma GateKeepsReady(events: seq<Event>, i: nat, j: nat, n: Addr)
    requires i < j <= |events| && events[i] == Recovers(n)
    requires var s := After(events, i);
             Up(s, n) && n !in s.run.m.listed && s.run.flush.Idle? && s.nodes[n].log <= s.run.m.log
    requires forall k :: i < k < j ==> events[k].Works? || events[k].node != n
    requires forall k :: i < k < j ==> !(events[k].Joins? && Tid(events[k].node) == Tid(n))
    requires forall k :: i < k < j ==> events[k] != Works(MR.Timeout(Tid(n)))
    ensures Ready(After(events, j), n) && MayJoin(After(events, j), n)
    ensures var t := Next(After(events, j), Joins(n));
            n in t.nodes && t.nodes[n].log == t.run.accepted
  {
    hide Sound, After, JoinNode, RecoverNode, ChangeNext;
    forall t | i < t <= j
      ensures Tid(n) in After(events, t).run.m.gate.ids
    {
      EntryStays(events, i, t, n);
    }
    ReadyWhileHeld(events, i, j, n);
    RunSound(events, j);
    JoinCompletesExactly(After(events, j), n);
    SameHistory(After(events, j), Joins(n));
  }

  /** The service as it is meant to be used: no node shares a name or a port with a listed one, a node that
      starts again has been taken off the list, and one that joins is ready. */
  ghost predicate Proper(s: State, e: Event) {
    match e
    case Changes(n, r) => Apart(n, s.run.m.listed)
    case Starts(n) => n !in s.run.m.listed
    case Joins(n) => Up(s, n) ==> Ready(s, n) && Apart(n, s.run.m.listed)
    case _ => true
  }

  ghost predicate ProperThrough(events: seq<Event>, n: nat)
    requires n <= |events|
  {
    n == 0 || (ProperThrough(events, n - 1) && Proper(After(events, n - 1), events[n - 1]))
  }

  lemma ProperIsHarmless(s: State, e: Event)
    requires Sound(s) && DistinctAddrs(s.run.m.listed) && Proper(s, e)
    ensures Harmless(s, e)
  {
    hide Sound, DistinctAddrs;
    match e
    case Changes(n, r) =>
      forall x | x in s.run.m.listed && x != n
        ensures Passes(n, x) && multiset(s.run.m.listed)[x] == 1
      {
        DistinctOnce(s.run.m.listed, x);
      }
    case Joins(n) => if Up(s, n) { ReadyMayJoin(s, n); }
    case _ =>
  }

  lemma DistinctCons(x: Addr, rest: seq<Addr>, ns: seq<Addr>)
    requires DistinctAddrs([x] + ns) && DistinctAddrs(rest) && forall n :: n in rest ==> n in ns
    ensures DistinctAddrs([x] + rest)
  {
    forall n | n in ns
      ensures x.name != n.name && x.port != n.port
    {
      var i :| 0 <= i < |ns| && ns[i] == n;
      assert ([x] + ns)[0] == x && ([x] + ns)[i + 1] == n;
    }
    assert forall j :: 0 <= j < |rest| ==> rest[j] in ns;
  }

  /** What is left of a list of distinct addresses after a sweep is a list of distinct addresses. */
  lemma {:induction false} KeptDistinct(ns: seq<Addr>, alive: Addr -> bool)
    requires DistinctAddrs(ns)
    ensures DistinctAddrs(Kept(ns, alive))
    decreases |ns|
  {
    if ns == [] || (|ns| == 1 && !alive(ns[0])) {
    } else {
      var k := if alive(ns[0]) then 1 else 2;
      KeptDistinct(ns[k..], alive);
      KeptMembers(ns[k..], alive);
      assert ns[k - 1..] == [ns[k - 1]] + ns[k..];
      DistinctCons(ns[k - 1], Kept(ns[k..], alive), ns[k..]);
    }
  }

  lemma ProperKeepsDistinct(s: State, e: Event)
    requires DistinctAddrs(s.run.m.listed) && Proper(s, e)
    ensures DistinctAddrs(Next(s, e).run.m.listed)
  {
    hide Deliver;
    if e.Changes? { KeptDistinct(s.run.m.listed, MR.Alive(s.dead)); }
    if e.Joins? && Up(s, e.node) {
      assert Next(s, e).run.m.listed == s.run.m.listed + [e.node];
    }
  }

  /** Used as it is meant to be, the service does no harm: so `RunAgreesExactly` and `ReplicasAgree` apply. */
  lemma {:induction false} ProperRunIsHarmless(events: seq<Event>, n: nat)
    requires n <= |events| && ProperThrough(events, n)
    ensures HarmlessThrough(events, n) && DistinctAddrs(After(events, n).run.m.listed)
  {
    if n > 0 {
      hide Proper, Harmless, Next, Sound, DistinctAddrs;
      ProperRunIsHarmless(events, n - 1);
      RunSound(events, n - 1);
      ProperIsHarmless(After(events, n - 1), events[n - 1]);
      ProperKeepsDistinct(After(events, n - 1), events[n - 1]);
    }
  }

  /** A node is not touched by the start, recovery or join of another one. */
  lemma OtherStays(s: State, e: Event, x: Addr)
    requires Sound(s) && x in s.nodes && !e.Changes? && !Concerns(e, x)
    ensures x in Next(s, e).nodes && Next(s, e).nodes[x] == s.nodes[x]
  {
    LogGrows(s, e, x);
    assert s.nodes[x].log + [] == s.nodes[x].log;
  }

  lemma Started(s: State, x: Addr)
    requires Sound(s)
    ensures var t := Next(s, Starts(x));
            && Sound(t) && Up(t, x) && t.nodes[x] == Own(s, x) && t.run == s.run && t.dead == s.dead - {x}
            && t.nodes[x].log == (if x in s.nodes then s.nodes[x].log else [])
            && t.nodes[x].db == Replay(t.nodes[x].log)
            && forall o :: o in s.nodes && o != x ==> o in t.nodes && t.nodes[o] == s.nodes[o]
  {
    NextSound(s, Starts(x));
  }

  lemma Recovered(s: State, x: Addr)
    requires Sound(s) && Up(s, x) && s.run.flush.Idle?
    ensures var t, own := Next(s, Recovers(x)), s.nodes[x].log;
            && Sound(t) && Up(t, x) && t.nodes[x].log == own + Missing(s.run.m.log, |own|)
            && t.run == s.run.(m := RecoverNext(s.run.m, x)) && t.dead == s.dead
            && forall o :: o in s.nodes && o != x ==> o in t.nodes && t.nodes[o] == s.nodes[o]
  {
    var t := Next(s, Recovers(x));
    assert t.run == MR.Next(s.run, MR.Recover(x, |s.nodes[x].log|)) && t.dead == s.dead;
    hide Sound, Replay, RecoverNode, Deliver;
    NextSound(s, Recovers(x));
    LogGrows(s, Recovers(x), x);
    forall o | o in s.nodes && o != x
      ensures o in t.nodes && t.nodes[o] == s.nodes[o]
    {
      OtherStays(s, Recovers(x), o);
    }
  }

  lemma Joined(s: State, x: Addr)
    requires Sound(s) && Up(s, x)
    ensures var t := Next(s, Joins(x));
            && Sound(t) && Up(t, x) && t.nodes[x].log == s.nodes[x].log + s.run.m.queue
            && t.run == s.run.(m := JoinNext(s.run.m, x)) && t.dead == s.dead
            && forall o :: o in s.nodes && o != x ==> o in t.nodes && t.nodes[o] == s.nodes[o]
  {
    var t := Next(s, Joins(x));
    assert t.run == MR.Next(s.run, MR.Join(x)) && t.dead == s.dead;
    hide Sound, Replay, JoinNode, Deliver;
    NextSound(s, Joins(x));
    LogGrows(s, Joins(x), x);
    forall o | o in s.nodes && o != x
      ensures o in t.nodes && t.nodes[o] == s.nodes[o]
    {
      OtherStays(s, Joins(x), o);
    }
  }

  /** A node starts again, recovers and joins. */
  function Rejoined(s: State, x: Addr): State {
    Next(Next(Next(s, Starts(x)), Recovers(x)), Joins(x))
  }

  /** What becomes of a node that does so while the worker is idle, whether or not it is listed still. */
  lemma RejoinedHas(s: State, x: Addr)
    requires Sound(s) && s.run.flush.Idle?
    ensures var t, own := Rejoined(s, x), Own(s, x).log;
            && Sound(t) && Up(t, x) && t.nodes[x].log == own + Missing(s.run.m.log, |own|) + s.run.m.queue
            && t.run == s.run.(m := JoinNext(RecoverNext(s.run.m, x), x)) && t.dead == s.dead - {x}
            && (forall o :: o in s.nodes && o != x ==> o in t.nodes && t.nodes[o] == s.nodes[o])
  {
    hide Sound, Next, RecoverNext, JoinNext, Replay;
    Started(s, x);
    Recovered(Next(s, Starts(x)), x);
    QueueStays(s.run.m, x);
    Joined(Next(Next(s, Starts(x)), Recovers(x)), x);
  }

  lemma QueueStays(m: MState, x: Addr)
    ensures RecoverNext(m, x).queue == m.queue
  {
  }

  /** A node that is still on the list when it starts again is on it twice after its join, and logs every
      later command twice. */
  lemma RelistedLogsTwice(s: State, x: Addr, o: Addr, r: Change, c: Command)
    requires Sound(s) && s.run.flush.Idle? && multiset(s.run.m.listed)[x] == 1
    requires Up(s, o) && Passes(o, x) && Accepted(s.nodes[o].db, r) == Some(c)
    ensures var t := Rejoined(s, x);
            && Up(t, x) && x in Next(t, Changes(o, r)).nodes
            && Next(t, Changes(o, r)).nodes[x].log == t.nodes[x].log + [c, c]
            && Next(t, Changes(o, r)).run.accepted == t.run.accepted + [c]
  {
    var t := Rejoined(s, x);
    RejoinedHas(s, x);
    hide Sound, Rejoined, Accepted, Replay;
    assert multiset(s.run.m.listed + [x])[x] == 2;
    ChangeAdds(t, o, r, x);
    ChangeMaster(t, o, r, c);
    assert Times(c, 2) == [c, c];
  }

  /** Node a is joined; a node b starts, and before it has recovered a client of its own creates a queue p,
      when the worker has already put the creation of a queue q into the master's log. */
  function EarlyClient(a: Addr, b: Addr, q: string, p: string): seq<Event> {
    [Starts(a), Recovers(a), Joins(a), Starts(b), Changes(a, Create(q)), Works(MR.FlushBegin), Works(MR.FlushCopy),
     Works(MR.FlushPop), Works(MR.FlushEnd), Changes(b, Create(p)), Recovers(b), Joins(b)]
  }

  /** A state with nobody at the gate, a joined, b not, and both up. */
  ghost predicate Holds(s: State, a: Addr, b: Addr, log: seq<Command>, queue: seq<Command>, own: seq<Command>) {
    && Sound(s) && s.run == MR.Run(MState(log, queue, SW.Gate(0, []), [a]), MR.Idle, log + queue)
    && Up(s, a) && Up(s, b) && s.nodes[b].log == own && s.dead == {}
  }

  lemma EarlyStart(a: Addr, b: Addr)
    requires a != b
    ensures Holds(Next(Rejoined(INIT, a), Starts(b)), a, b, [], [], [])
    ensures Next(Rejoined(INIT, a), Starts(b)).nodes[a].log == []
  {
    MR.OneHolder(Tid(a));
    assert Sound(INIT);
    hide Rejoined, Next, Sound, Replay, SW.Incremented, SW.Decremented;
    RejoinedHas(INIT, a);
    Started(Rejoined(INIT, a), b);
  }

  /** A node that has no queue of that name creates one. */
  lemma Creates(s: State, a: Addr, b: Addr, log: seq<Command>, queue: seq<Command>, own: seq<Command>, n: Addr,
           q: string)
    requires a != b && Holds(s, a, b, log, queue, own) && (n == a || n == b) && q !in s.nodes[n].db
    ensures var c := CreateQueue(q);
            Holds(Next(s, Changes(n, Create(q))), a, b, log, queue + [c], if n == b then own + [c] else own)
  {
    hide Sound, Next, Replay, Added;
    NextSound(s, Changes(n, Create(q)));
    CreatedRun(s, n, a, log, queue, q);
    CreateAdds(s, n, a, b, q);
    LogGrows(s, Changes(n, Create(q)), a);
    LogGrows(s, Changes(n, Create(q)), b);
    assert own + [] == own;
  }

  lemma CreateAdds(s: State, n: Addr, a: Addr, b: Addr, q: string)
    requires a != b && s.run.m.listed == [a] && Up(s, a) && Up(s, b) && (n == a || n == b) && q !in s.nodes[n].db
    ensures Added(s, Changes(n, Create(q)), b) == if n == b then [CreateQueue(q)] else []
  {
    assert Times(CreateQueue(q), 0) == [] && Times(CreateQueue(q), 1) == [CreateQueue(q)];
  }

  lemma CreatedRun(s: State, n: Addr, a: Addr, log: seq<Command>, queue: seq<Command>, q: string)
    requires s.run == MR.Run(MState(log, queue, SW.Gate(0, []), [a]), MR.Idle, log + queue) && s.dead == {}
    requires Up(s, n) && q !in s.nodes[n].db
    ensures var t, now := Next(s, Changes(n, Create(q))), queue + [CreateQueue(q)];
            t.run == MR.Run(MState(log, now, SW.Gate(0, []), [a]), MR.Idle, log + now) && t.dead == {}
  {
    assert log + queue + [CreateQueue(q)] == log + (queue + [CreateQueue(q)]) && Kept([a], MR.Alive({})) == [a];
    hide Deliver, Stored;
  }

  function Flushed(s: State): State {
    Next(Next(Next(Next(s, Works(MR.FlushBegin)), Works(MR.FlushCopy)), Works(MR.FlushPop)), Works(MR.FlushEnd))
  }

  lemma Flushes(s: State, a: Addr, b: Addr, c: Command, own: seq<Command>)
    requires Holds(s, a, b, [], [c], own)
    ensures Holds(Flushed(s), a, b, [c], [], own) && Flushed(s).nodes == s.nodes
  {
    MR.OneFlush(s.run, c);
    hide MR.Next;
    assert [] + [c] == [c] + [] == [c];
  }

  lemma AfterStep(run: seq<Event>, n: nat)
    requires n < |run|
    ensures After(run, n + 1) == Next(After(run, n), run[n])
  {
  }

  lemma TwelveSteps(run: seq<Event>, s: State, t: State, u: State)
    requires |run| == 12
    requires s == Next(Next(Next(Next(INIT, run[0]), run[1]), run[2]), run[3]) && t == Next(s, run[4])
    requires u == Next(Next(Next(Next(t, run[5]), run[6]), run[7]), run[8])
    ensures After(run, 4) == s && After(run, 5) == t && After(run, 9) == u && After(run, 10) == Next(u, run[9])
    ensures After(run, 11) == Next(After(run, 10), run[10]) && After(run, 12) == Next(After(run, 11), run[11])
  {
    assert After(run, 0) == INIT;
    hide After, Next;
    AfterStep(run, 0);
    AfterStep(run, 1);
    AfterStep(run, 2);
    AfterStep(run, 3);
    AfterStep(run, 4);
    AfterStep(run, 5);
    AfterStep(run, 6);
    AfterStep(run, 7);
    AfterStep(run, 8);
    AfterStep(run, 9);
    AfterStep(run, 10);
    AfterStep(run, 11);
  }

  /** The recovery finds a log that is no longer than the master's, and sends nothing; then the join sends
      b its own command. */
  lemma EarlyEnd(s: State, a: Addr, b: Addr, c: Command, d: Command)
    requires a != b && Holds(s, a, b, [c], [d], [d])
    ensures var t, u := Next(s, Recovers(b)), Next(Next(s, Recovers(b)), Joins(b));
            && Up(t, b) && t.run.m.listed == [a] && Tid(b) in t.run.m.gate.ids && t.nodes[b].log == [d]
            && t.run.m.queue == [d] && t.run.accepted == [c, d]
            && Up(u, b) && u.run.m.listed == [a, b] && u.run.accepted == [c, d] && u.nodes[b].log == [d, d]
            && Sound(u)
  {
    Recovered(s, b);
    Joined(Next(s, Recovers(b)), b);
    SW.IncrementKeeps(s.run.m.gate, Tid(b));
    hide Sound, Next, SW.Incremented, SW.Decremented;
    assert [d] + [] == [d] && [d] + [d] == [d, d] && [c] + [d] == [c, d] && [a] + [b] == [a, b];
  }

  lemma CreatedTwice(c: Command, q: string)
    requires c.CreateQueue? && c.queue != q
    ensures q !in Replay([c, c]).Keys && Replay([]) == map[] && q !in Replay([c])
  {
    ReplaySnoc([c], c);
    ReplaySnoc([], c);
    assert [c] + [c] == [c, c] && [] + [c] == [c];
  }

  lemma EarlySteps(a: Addr, b: Addr, q: string, p: string, run: seq<Event>)
    requires run == EarlyClient(a, b, q, p)
    ensures var t := Next(Next(Rejoined(INIT, a), Starts(b)), Changes(a, Create(q)));
            var u := Next(Flushed(t), Changes(b, Create(p)));
            After(run, 11) == Next(u, Recovers(b)) && After(run, 12) == Next(Next(u, Recovers(b)), Joins(b))
  {
    var s := Next(Rejoined(INIT, a), Starts(b));
    hide After, Next;
    TwelveSteps(run, s, Next(s, run[4]), Flushed(Next(s, run[4])));
  }

  /** Before b recovers. */
  lemma EarlyChange(a: Addr, b: Addr, q: string, p: string)
    requires a != b && q != p
    ensures var s := Next(Next(Rejoined(INIT, a), Starts(b)), Changes(a, Create(q)));
            Holds(Next(Flushed(s), Changes(b, Create(p))), a, b, [CreateQueue(q)], [CreateQueue(p)], [CreateQueue(p)])
  {
    var s := Next(Rejoined(INIT, a), Starts(b));
    var t := Next(s, Changes(a, Create(q)));
    hide Next, Rejoined, Replay, Flushed;
    EarlyStart(a, b);
    CreatedTwice(CreateQueue(p), q);
    Creates(s, a, b, [], [], [], a, q);
    Flushes(t, a, b, CreateQueue(q), []);
    Creates(Flushed(t), a, b, [CreateQueue(q)], [], [], b, p);
  }

  /** A node that served a client before it joined can meet the count of `JoinCompletesExactly`, and hold the
      gate, and still end with a log that is not the history: its own command is there twice, and the other
      one is not there. */
  lemma EarlyClientLosesCommand(a: Addr, b: Addr, q: string, p: string)
    requires a != b && q != p
    ensures var run, c, d := EarlyClient(a, b, q, p), CreateQueue(q), CreateQueue(p);
            var s, t := After(run, 11), After(run, 12);
            && Up(s, b) && s.run.m.listed == [a] && Tid(b) in s.run.m.gate.ids
            && |s.nodes[b].log| == MR.Popped(s.run) && !(s.nodes[b].log <= s.run.accepted)
            && Up(t, b) && t.run.m.listed == [a, b] && t.run.accepted == [c, d]
            && t.nodes[b].log == [d, d] && q !in t.nodes[b].db
  {
    var run, c, d := EarlyClient(a, b, q, p), CreateQueue(q), CreateQueue(p);
    hide Next, After, EarlyClient, Rejoined, Replay, Flushed;
    EarlySteps(a, b, q, p, run);
    EarlyChange(a, b, q, p);
    var t := Next(Next(Rejoined(INIT, a), Starts(b)), Changes(a, Create(q)));
    EarlyEnd(Next(Flushed(t), Changes(b, Create(p))), a, b, c, d);
    CreatedTwice(d, q);
    assert [d][0] != [c, d][0];
  }
}
