/** Changes that overlap: an origin stores and logs a change at one step, and the
    master accepts and fans it out at a later one. */
module InFlight {
  import opened Basics
  import opened Commands
  import opened FanOut
  import opened Master
  import MR = MasterRuns
  import C = Cluster

  /** flying are each node's commands that are logged there and not yet accepted by the master. */
  datatype State = State(all: C.State, flying: map<Addr, seq<Command>>)

  /** Everything but a change, which is two steps here. */
  type Event = e: C.Event | !e.Changes? witness C.Works(MR.FlushBegin)

  datatype Step = Append(origin: Addr, change: Change) | Arrive(origin: Addr) | Lose(origin: Addr) | Other(event: Event)

  const INIT := State(C.INIT, map[])

  function FlyingAt(s: State, n: Addr): seq<Command> {
    if n in s.flying then s.flying[n] else []
  }

  function Joined(s: State): seq<Addr> {
    s.all.run.m.listed
  }

  /** A joined node that is up. */
  predicate Member(s: State, n: Addr) {
    n in Joined(s) && C.Up(s.all, n)
  }

  /** The origin's half of a change. */
  function Appended(s: C.State, n: Addr, c: Command, r: Change): C.State
    requires n in s.nodes
  {
    s.(nodes := s.nodes[n := C.Replica(s.nodes[n].log + [c], Stored(s.nodes[n].db, r))])
  }

  /** The master's half of a change. */
  function Accept(s: C.State, n: Addr, c: Command): C.State {
    C.State(MR.Next(s.run, MR.Accept(c, s.dead)),
            C.Deliver(s.nodes, s.dead, AcceptSends(s.run.m, c, n, MR.Alive(s.dead))), s.dead)
  }

  /** What a node in flight has sent may still arrive when the node has gone down, or be lost. */
  function Next(s: State, a: Step): State {
    match a
    case Append(n, r) =>
      if C.Up(s.all, n) && Accepted(s.all.nodes[n].db, r).Some? then
        var c := Accepted(s.all.nodes[n].db, r).value;
        State(Appended(s.all, n, c, r), s.flying[n := FlyingAt(s, n) + [c]])
      else s
    case Arrive(n) =>
      if FlyingAt(s, n) == [] then s
      else State(Accept(s.all, n, FlyingAt(s, n)[0]), s.flying[n := FlyingAt(s, n)[1..]])
    case Lose(n) => if n in s.all.dead then s.(flying := s.flying[n := []]) else s
    case Other(e) => s.(all := C.Next(s.all, e))
  }

  ghost predicate Sound(s: State) {
    C.Sound(s.all)
  }

  function Logged(own: C.Replica, c: Command): C.Replica {
    C.Replica(own.log + [c], Replay(own.log + [c]))
  }

  /** An append changes its origin alone. */
  lemma AppendChanges(s: State, n: Addr, r: Change, c: Command)
    requires Sound(s) && C.Up(s.all, n) && Accepted(s.all.nodes[n].db, r) == Some(c)
    ensures Next(s, Append(n, r))
         == State(s.all.(nodes := s.all.nodes[n := Logged(s.all.nodes[n], c)]), s.flying[n := FlyingAt(s, n) + [c]])
  {
    C.OriginReplays(s.all.nodes[n], r, c);
  }

  lemma AppendSound(s: State, n: Addr, r: Change)
    requires Sound(s)
    ensures Sound(Next(s, Append(n, r)))
  {
    if C.Up(s.all, n) && Accepted(s.all.nodes[n].db, r).Some? {
      AppendChanges(s, n, r, Accepted(s.all.nodes[n].db, r).value);
      hide Next, MR.Ok;
    }
  }

  /** How often an arrival from n goes to node x. */
  function Copies(s: State, n: Addr, x: Addr): nat {
    if !C.Up(s.all, x) || !Passes(n, x) then 0 else multiset(Joined(s))[x]
  }

  /** What an arrival does to the history, the list and what is in flight. */
  lemma ArriveChanges(s: State, n: Addr)
    requires FlyingAt(s, n) != []
    ensures var t, c := Next(s, Arrive(n)), FlyingAt(s, n)[0];
            && t.all.run.accepted == s.all.run.accepted + [c] && t.all.dead == s.all.dead
            && t.flying == s.flying[n := FlyingAt(s, n)[1..]] && t.all.nodes.Keys == s.all.nodes.Keys
            && (forall x :: x !in s.all.dead ==> (x in Joined(t) <==> x in Joined(s)))
            && (forall x :: C.Up(s.all, x) ==> multiset(Joined(t))[x] == multiset(Joined(s))[x])
  {
    hide C.Deliver;
    var t := Next(s, Arrive(n));
    assert Joined(t) == Kept(Joined(s), MR.Alive(s.all.dead));
    KeptMembers(Joined(s), MR.Alive(s.all.dead));
    assert t.all.nodes.Keys == s.all.nodes.Keys by { DeliverKeys(s.all, n, FlyingAt(s, n)[0]); }
    forall x | C.Up(s.all, x)
      ensures multiset(Joined(t))[x] == multiset(Joined(s))[x]
    {
      KeptCount(Joined(s), MR.Alive(s.all.dead), x);
    }
  }

  lemma DeliverKeys(s: C.State, n: Addr, c: Command)
    ensures Accept(s, n, c).nodes.Keys == s.nodes.Keys
  {
  }

  /** What an arrival does to one node: it logs the command as often as it is sent to it. */
  lemma ArriveOne(s: State, n: Addr, x: Addr)
    requires Sound(s) && FlyingAt(s, n) != [] && x in s.all.nodes
    ensures x in Next(s, Arrive(n)).all.nodes
    ensures C.Grew(s.all.nodes[x], Next(s, Arrive(n)).all.nodes[x], C.Times(FlyingAt(s, n)[0], Copies(s, n, x)))
  {
    var all, c := s.all, FlyingAt(s, n)[0];
    var sent := AcceptSends(all.run.m, c, n, MR.Alive(all.dead));
    assert all.nodes[x].db == Replay(all.nodes[x].log);
    assert Next(s, Arrive(n)).all.nodes == C.Deliver(all.nodes, all.dead, sent);
    hide Next, C.Deliver, AcceptSends, Replay, Sound;
    C.DeliverOne(all.nodes, all.dead, sent, x);
    if x !in all.dead { C.FanOutSends(all.run.m, c, n, all.dead, x); }
    assert C.Times(c, 0) == [];
  }

  lemma ArriveSound(s: State, n: Addr)
    requires Sound(s)
    ensures Sound(Next(s, Arrive(n)))
  {
    if FlyingAt(s, n) != [] {
      var t := Next(s, Arrive(n));
      MR.NextOk(s.all.run, MR.Accept(FlyingAt(s, n)[0], s.all.dead));
      assert MR.Ok(t.all.run);
      ArriveChanges(s, n);
      hide Next, MR.Ok, Replay;
      forall x | x in t.all.nodes
        ensures t.all.nodes[x].db == Replay(t.all.nodes[x].log)
      {
        ArriveOne(s, n, x);
      }
    }
  }

  lemma NextSound(s: State, a: Step)
    requires Sound(s)
    ensures Sound(Next(s, a))
  {
    hide C.Sound, C.Next;
    match a
    case Append(n, r) => AppendSound(s, n, r);
    case Arrive(n) => ArriveSound(s, n);
    case Lose(n) =>
    case Other(e) => C.NextSound(s.all, e);
  }

  /** A log is, as a multiset, the history and the node's own commands in flight. */
  ghost predicate Fits(log: seq<Command>, accepted: seq<Command>, flying: seq<Command>) {
    multiset(log) == multiset(accepted) + multiset(flying)
  }

  ghost predicate FitsAt(s: State, x: Addr) {
    x in s.all.nodes && Fits(s.all.nodes[x].log, s.all.run.accepted, FlyingAt(s, x))
  }

  ghost predicate Conserved(s: State) {
    forall x :: x in Joined(s) && x !in s.all.dead ==> FitsAt(s, x)
  }

  /** What a step must meet for the joined nodes to conserve the commands: an arrival reaches all, and a node
      that starts again while it is listed, or joins, has what it should. */
  ghost predicate Harmless(s: State, a: Step) {
    match a
    case Arrive(n) => FlyingAt(s, n) != [] ==> C.ReachesAll(s.all, n)
    case Other(Starts(n)) => n in Joined(s) ==> Fits(C.Own(s.all, n).log, s.all.run.accepted, FlyingAt(s, n))
    case Other(Joins(n)) =>
      C.Up(s.all, n) ==> Fits(s.all.nodes[n].log + s.all.run.m.queue, s.all.run.accepted, FlyingAt(s, n))
    case _ => true
  }

  lemma FitsMore(log: seq<Command>, accepted: seq<Command>, flying: seq<Command>, c: Command, k: nat)
    requires Fits(log, accepted, flying)
    ensures Fits(log + [c], accepted, flying + [c])
    ensures Fits(log + C.Times(c, k), accepted + [c], flying) <==> k == 1
  {
    assert |multiset(log + C.Times(c, k))| == |log| + k;
    assert |multiset(accepted + [c]) + multiset(flying)| == |accepted| + 1 + |flying|;
    assert |multiset(accepted) + multiset(flying)| == |accepted| + |flying| && |multiset(log)| == |log|;
    assert C.Times(c, 1) == [c];
  }

  lemma FitsArrived(log: seq<Command>, accepted: seq<Command>, flying: seq<Command>)
    requires Fits(log, accepted, flying) && flying != []
    ensures Fits(log, accepted + [flying[0]], flying[1..])
  {
    assert flying == [flying[0]] + flying[1..];
  }

  lemma AppendOne(s: State, n: Addr, r: Change, c: Command, x: Addr)
    requires Sound(s) && C.Up(s.all, n) && Accepted(s.all.nodes[n].db, r) == Some(c) && x in s.all.nodes
    ensures var t := Next(s, Append(n, r));
            && t.all.run == s.all.run && t.all.dead == s.all.dead && x in t.all.nodes
            && t.all.nodes[x] == (if x == n then Logged(s.all.nodes[x], c) else s.all.nodes[x])
            && FlyingAt(t, x) == if x == n then FlyingAt(s, x) + [c] else FlyingAt(s, x)
  {
    AppendChanges(s, n, r, c);
  }

  lemma AppendFits(s: State, n: Addr, r: Change, x: Addr)
    requires Sound(s) && FitsAt(s, x)
    ensures FitsAt(Next(s, Append(n, r)), x)
  {
    if C.Up(s.all, n) && Accepted(s.all.nodes[n].db, r).Some? {
      var c := Accepted(s.all.nodes[n].db, r).value;
      hide Next, Fits, Sound, Accepted, FlyingAt;
      AppendOne(s, n, r, c, x);
      FitsMore(s.all.nodes[x].log, s.all.run.accepted, FlyingAt(s, x), c, 0);
    }
  }

  lemma AppendKeepsList(s: State, n: Addr, r: Change)
    ensures Joined(Next(s, Append(n, r))) == Joined(s) && Next(s, Append(n, r)).all.dead == s.all.dead
  {
  }

  lemma AppendConserves(s: State, n: Addr, r: Change)
    requires Sound(s) && Conserved(s)
    ensures Conserved(Next(s, Append(n, r)))
  {
    AppendKeepsList(s, n, r);
    hide Next, Sound, FitsAt;
    forall x | x in Joined(s) && x !in s.all.dead ensures FitsAt(Next(s, Append(n, r)), x) { AppendFits(s, n, r, x); }
  }

  /** What an arrival leaves at one member: what it should, if the node is the origin or is sent the command once. */
  lemma ArriveFitsExactly(s: State, n: Addr, x: Addr)
    requires Sound(s) && FlyingAt(s, n) != [] && Member(s, x) && FitsAt(s, x)
    ensures FitsAt(Next(s, Arrive(n)), x) <==> x == n || (Passes(n, x) && multiset(Joined(s))[x] == 1)
  {
    var t, log, accepted, c := Next(s, Arrive(n)), s.all.nodes[x].log, s.all.run.accepted, FlyingAt(s, n)[0];
    hide Next, Sound, Fits;
    ArriveChanges(s, n);
    ArriveOne(s, n, x);
    if x == n {
      assert log + C.Times(c, 0) == log;
      FitsArrived(log, accepted, FlyingAt(s, n));
    } else {
      FitsMore(log, accepted, FlyingAt(s, x), c, Copies(s, n, x));
    }
  }

  lemma ArriveConservesExactly(s: State, n: Addr)
    requires Sound(s) && Conserved(s) && FlyingAt(s, n) != []
    ensures Conserved(Next(s, Arrive(n))) <==> C.ReachesAll(s.all, n)
  {
    var t := Next(s, Arrive(n));
    ArriveChanges(s, n);
    hide Next, Sound, Passes, FitsAt, FlyingAt;
    forall x | x in Joined(s) && x !in s.all.dead
      ensures x in s.all.nodes && x in Joined(t)
      ensures FitsAt(t, x) <==> x == n || (Passes(n, x) && multiset(Joined(s))[x] == 1)
    {
      IsMember(s, x);
      ArriveFitsExactly(s, n, x);
    }
  }

  /** A recovery has nothing for a node with the whole history. */
  lemma FullAddsNothing(s: State, e: Event, x: Addr)
    requires Sound(s) && Member(s, x) && e != C.Joins(x) && FitsAt(s, x)
    ensures C.Added(s.all, e, x) == []
  {
    if e == C.Recovers(x) {
      var log, accepted := s.all.nodes[x].log, s.all.run.accepted;
      MR.QueueIsTail(s.all.run);
      assert |multiset(log)| == |log| && |multiset(accepted) + multiset(FlyingAt(s, x))| >= |accepted|;
    }
  }

  lemma MemberKeepsLog(s: State, e: Event, x: Addr)
    requires Sound(s) && Member(s, x) && e != C.Joins(x) && FitsAt(s, x)
    ensures x in C.Next(s.all, e).nodes && C.Next(s.all, e).nodes[x].log == s.all.nodes[x].log
  {
    hide C.Next, Sound, Fits, C.Added;
    assert C.Sound(s.all) by { SoundMeans(s); }
    C.LogGrows(s.all, e, x);
    FullAddsNothing(s, e, x);
    assert s.all.nodes[x].log + [] == s.all.nodes[x].log;
  }

  lemma SoundMeans(s: State)
    requires Sound(s)
    ensures C.Sound(s.all)
  {
  }

  lemma JoinFitsExactly(s: State, n: Addr)
    requires Sound(s) && C.Up(s.all, n)
    ensures var log := s.all.nodes[n].log + s.all.run.m.queue;
            FitsAt(Next(s, Other(C.Joins(n))), n) <==> Fits(log, s.all.run.accepted, FlyingAt(s, n))
  {
    C.LogGrows(s.all, C.Joins(n), n);
    hide C.JoinNode, C.Deliver, Fits, Replay;
    assert C.JoinNode(s.all, n).run.accepted == s.all.run.accepted by { C.SameHistory(s.all, C.Joins(n)); }
  }

  lemma MemberKeepsFit(s: State, e: Event, x: Addr)
    requires Sound(s) && Member(s, x) && e != C.Joins(x) && FitsAt(s, x)
    ensures FitsAt(Next(s, Other(e)), x)
  {
    C.SameHistory(s.all, e);
    MemberKeepsLog(s, e, x);
    hide C.Next, Fits, Sound;
  }

  lemma JoinConservesExactly(s: State, n: Addr)
    requires Sound(s) && Conserved(s) && C.Up(s.all, n)
    ensures Conserved(Next(s, Other(C.Joins(n)))) <==> FitsAt(Next(s, Other(C.Joins(n))), n)
  {
    var t := Next(s, Other(C.Joins(n)));
    assert Joined(t) == Joined(s) + [n] && t.all.dead == s.all.dead;
    hide Next, FitsAt, Sound;
    forall x | x in Joined(s) && x !in s.all.dead && x != n
      ensures FitsAt(t, x)
    {
      IsMember(s, x);
      MemberKeepsFit(s, C.Joins(n), x);
    }
    assert n in Joined(t);
  }

  lemma StartConservesExactly(s: State, n: Addr)
    requires Conserved(s)
    ensures Conserved(Next(s, Other(C.Starts(n)))) <==> Harmless(s, Other(C.Starts(n)))
  {
    var t := Next(s, Other(C.Starts(n)));
    hide Fits;
    assert C.Up(t.all, n) && t.all.nodes[n] == C.Own(s.all, n) && Joined(t) == Joined(s);
  }

  lemma RestConserves(s: State, e: Event)
    requires Sound(s) && Conserved(s) && !e.Starts? && (e.Joins? ==> !C.Up(s.all, e.node))
    ensures Conserved(Next(s, Other(e)))
  {
    var t := Next(s, Other(e));
    assert Joined(t) == Joined(s) && t.all.dead >= s.all.dead;
    hide Next, FitsAt, Sound, C.Up;
    forall x | x in Joined(s) && x !in s.all.dead
      ensures FitsAt(t, x)
    {
      IsMember(s, x);
      MemberKeepsFit(s, e, x);
    }
  }

  lemma IsMember(s: State, x: Addr)
    requires Conserved(s) && x in Joined(s) && x !in s.all.dead
    ensures Member(s, x) && FitsAt(s, x)
  {
  }

  /** A request is lost only if its node has gone down, and the node's log keeps the command. */
  lemma LoseChanges(s: State, n: Addr)
    ensures var t := Next(s, Lose(n));
            && t.all == s.all && FlyingAt(t, n) == (if n in s.all.dead then [] else FlyingAt(s, n))
            && forall x :: x != n ==> FlyingAt(t, x) == FlyingAt(s, x)
  {
  }

  lemma LoseConserves(s: State, n: Addr)
    requires Conserved(s)
    ensures Conserved(Next(s, Lose(n)))
  {
    var t := Next(s, Lose(n));
    hide Fits;
    forall x | x in Joined(t) && x !in t.all.dead
      ensures FitsAt(t, x)
    {
      assert FitsAt(s, x) && FlyingAt(t, x) == FlyingAt(s, x);
    }
  }

  /** Exactly which steps conserve the commands. */
  lemma StepConservesExactly(s: State, a: Step)
    requires Sound(s) && Conserved(s)
    ensures Conserved(Next(s, a)) <==> Harmless(s, a)
  {
    match a
    case Append(n, r) => hide Sound, Conserved; AppendConserves(s, n, r);
    case Arrive(n) => if FlyingAt(s, n) != [] { hide Sound, Conserved, Next; ArriveConservesExactly(s, n); }
    case Lose(n) => LoseConserves(s, n);
    case Other(e) =>
      hide Sound, Conserved, Fits, Next;
      if e.Starts? {
        StartConservesExactly(s, e.node);
      } else if e.Joins? && C.Up(s.all, e.node) {
        JoinConservesExactly(s, e.node);
        JoinFitsExactly(s, e.node);
      } else {
        RestConserves(s, e);
      }
  }

  function After(s: State, run: seq<Step>, n: nat): State
    requires n <= |run|
  {
    if n == 0 then s else Next(After(s, run, n - 1), run[n - 1])
  }

  lemma {:induction false} RunSound(s: State, run: seq<Step>, n: nat)
    requires Sound(s) && n <= |run|
    ensures Sound(After(s, run, n))
  {
    if n > 0 {
      hide Sound, Next;
      RunSound(s, run, n - 1);
      NextSound(After(s, run, n - 1), run[n - 1]);
    }
  }

  ghost predicate HarmlessThrough(s: State, run: seq<Step>, n: nat)
    requires n <= |run|
  {
    n == 0 || (HarmlessThrough(s, run, n - 1) && Harmless(After(s, run, n - 1), run[n - 1]))
  }

  ghost predicate ConservedThrough(s: State, run: seq<Step>, n: nat)
    requires n <= |run|
  {
    (n == 0 || ConservedThrough(s, run, n - 1)) && Conserved(After(s, run, n))
  }

  /** Conservation with overlapping changes, crashes, recoveries, joins and flushes: throughout a run the log
      of every joined node that is up holds the accepted history and the node's own commands in flight, each
      as often, and nothing else, if and only if every step was harmless when it was taken. */
  lemma {:induction false} RunConservesExactly(s: State, run: seq<Step>, n: nat)
    requires Sound(s) && Conserved(s) && n <= |run|
    ensures ConservedThrough(s, run, n) <==> HarmlessThrough(s, run, n)
  {
    if n > 0 {
      hide Conserved, Harmless, Next, Sound;
      RunConservesExactly(s, run, n - 1);
      RunSound(s, run, n - 1);
      if ConservedThrough(s, run, n - 1) {
        assert Conserved(After(s, run, n - 1));
        StepConservesExactly(After(s, run, n - 1), run[n - 1]);
      }
    }
  }

  /** And in any run at all every store is the replay of its log. */
  lemma {:induction false} StoresReplayed(s: State, run: seq<Step>, n: nat, a: Addr)
    requires Sound(s) && n <= |run| && a in After(s, run, n).all.nodes
    ensures After(s, run, n).all.nodes[a].db == Replay(After(s, run, n).all.nodes[a].log)
  {
    hide Next, After;
    RunSound(s, run, n);
  }

  /** Once nothing of two members is in flight, their logs are permutations of one another. */
  lemma {:induction false} QuietLogsPermute(s: State, run: seq<Step>, n: nat, a: Addr, b: Addr)
    requires Sound(s) && Conserved(s) && n <= |run| && HarmlessThrough(s, run, n)
    requires var t := After(s, run, n);
             Member(t, a) && Member(t, b) && FlyingAt(t, a) == FlyingAt(t, b) == []
    ensures multiset(After(s, run, n).all.nodes[a].log) == multiset(After(s, run, n).all.nodes[b].log)
  {
    var t := After(s, run, n);
    hide Next, Sound, HarmlessThrough;
    RunConservesExactly(s, run, n);
    assert ConservedThrough(s, run, n) && Conserved(t);
    hide After;
    assert FitsAt(t, a) && FitsAt(t, b);
  }

  /** A change whose two halves come right after one another is the one-step change of `Cluster`. */
  lemma TogetherIsChange(s: State, n: Addr, r: Change)
    requires C.Up(s.all, n) && FlyingAt(s, n) == [] && Accepted(s.all.nodes[n].db, r).Some?
    ensures Next(Next(s, Append(n, r)), Arrive(n)).all == C.Next(s.all, C.Changes(n, r))
    ensures forall x :: FlyingAt(Next(Next(s, Append(n, r)), Arrive(n)), x) == FlyingAt(s, x)
  {
    var c := Accepted(s.all.nodes[n].db, r).value;
    assert [] + [c] == [c] && [c][1..] == [];
    hide C.Deliver, MR.Next;
  }
}
