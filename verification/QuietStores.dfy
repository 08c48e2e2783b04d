/** When overlapping changes leave all stores equal: runs in which no two nodes have
    changes of one queue in flight at once. */
module QuietStores {
  import opened Basics
  import opened Database
  import opened Commands
  import opened FanOut
  import C = Cluster
  import opened InFlight
  import opened Overlap

  function OnQueue(q: string): Command -> bool {
    (c: Command) => c.queue == q
  }

  /** The commands of one queue, in order. */
  function Part(cs: seq<Command>, q: string): seq<Command> {
    Filter(cs, OnQueue(q))
  }

  /** A queue's table depends on that queue's commands alone. */
  lemma {:induction false} ReplayPart(log: seq<Command>, q: string)
    ensures TableOf(Replay(log), q) == TableOf(Replay(Part(log, q)), q)
    decreases |log|
  {
    if log == [] {
      assert Part(log, q) == [];
    } else {
      hide Apply, TableOf, Filter;
      var init, c := log[..|log| - 1], log[|log| - 1];
      assert log == init + [c];
      ReplayPart(init, q);
      FilterSnoc(init, c, OnQueue(q));
      ReplaySnoc(init, c);
      if c.queue == q {
        ReplaySnoc(Part(init, q), c);
        DependsOnOwn(Replay(init), Replay(Part(init, q)), c);
      } else {
        assert Part(init, q) + [] == Part(init, q);
        TouchesOwn(Replay(init), c, q);
      }
    }
  }

  lemma SamePartsSameStore(a: seq<Command>, b: seq<Command>)
    requires forall q :: Part(a, q) == Part(b, q)
    ensures Replay(a) == Replay(b)
  {
    hide Replay, TableOf, Part;
    forall q
      ensures TableOf(Replay(a), q) == TableOf(Replay(b), q)
    {
      ReplayPart(a, q);
      ReplayPart(b, q);
    }
    SameTables(Replay(a), Replay(b));
  }

  lemma PartSnoc(cs: seq<Command>, c: Command, q: string)
    ensures Part(cs + [c], q) == if c.queue == q then Part(cs, q) + [c] else Part(cs, q)
  {
    FilterSnoc(cs, c, OnQueue(q));
    assert Part(cs, q) + [] == Part(cs, q);
  }

  lemma HeadPart(cs: seq<Command>, q: string)
    requires cs != []
    ensures Part(cs, q) == (if cs[0].queue == q then [cs[0]] else []) + Part(cs[1..], q)
  {
  }

  /** An append finds no command of its queue in flight at any other node. */
  ghost predicate Alone(s: State, n: Addr, r: Change) {
    C.Up(s.all, n) && Accepted(s.all.nodes[n].db, r).Some? ==>
      forall x :: x != n ==> Part(FlyingAt(s, x), r.queue) == []
  }

  /** A log is a permutation of the history and the node's commands in flight, with each queue's commands in
      that order. */
  ghost predicate InParts(log: seq<Command>, all: seq<Command>, flying: seq<Command>) {
    Fits(log, all, flying) && forall q :: Part(log, q) == Part(all, q) + Part(flying, q)
  }

  /** What is asked of a step whatever overlaps: an arrival reaches all, and a node that starts again while it
      is listed, or joins, then has each queue's commands in order. */
  ghost predicate Orderly(s: State, a: Step) {
    match a
    case Arrive(n) => FlyingAt(s, n) != [] ==> C.ReachesAll(s.all, n)
    case Other(Starts(n)) => n in Joined(s) ==> InParts(C.Own(s.all, n).log, s.all.run.accepted, FlyingAt(s, n))
    case Other(Joins(n)) =>
      C.Up(s.all, n) ==> InParts(s.all.nodes[n].log + s.all.run.m.queue, s.all.run.accepted, FlyingAt(s, n))
    case _ => true
  }

  /** And besides, that changes of one queue do not overlap. */
  ghost predicate Quiet(s: State, a: Step) {
    Orderly(s, a) && (a.Append? ==> Alone(s, a.origin, a.change))
  }

  lemma OrderlyIsHarmless(s: State, a: Step)
    requires Orderly(s, a)
    ensures Harmless(s, a)
  {
    hide Fits, Part;
  }

  /** A join that gives a node with nothing in flight the whole history is orderly. */
  lemma CompleteJoinIsOrderly(s: State, n: Addr)
    requires Sound(s) && C.Up(s.all, n) && C.MayJoin(s.all, n) && FlyingAt(s, n) == []
    ensures Orderly(s, Other(C.Joins(n)))
  {
    C.QueueCompletesExactly(s.all, n);
    var all := s.all.run.accepted;
    forall q
      ensures Part(all, q) == Part(all, q) + Part([], q)
    {
      assert Part([], q) == [];
    }
    hide Part, Sound;
  }

  /** At node n, the commands of q that are logged are those of the history and then its own in flight. */
  ghost predicate PartAt(s: State, q: string, n: Addr) {
    n in s.all.nodes && Part(s.all.nodes[n].log, q) == Part(s.all.run.accepted, q) + Part(FlyingAt(s, n), q)
  }

  /** No two nodes have commands of q in flight. */
  ghost predicate OneFlier(s: State, q: string) {
    forall n, m :: n != m ==> Part(FlyingAt(s, n), q) == [] || Part(FlyingAt(s, m), q) == []
  }

  ghost predicate InOrder(s: State, q: string) {
    OneFlier(s, q) && forall n :: n in Joined(s) && n !in s.all.dead ==> PartAt(s, q, n)
  }

  lemma AppendedOnQueue(db: Tables, r: Change, c: Command)
    requires Accepted(db, r) == Some(c)
    ensures c.queue == r.queue
  {
  }

  lemma AppendFlying(s: State, n: Addr, r: Change, x: Addr)
    requires C.Up(s.all, n) && Accepted(s.all.nodes[n].db, r).Some?
    ensures FlyingAt(Next(s, Append(n, r)), x)
         == FlyingAt(s, x) + if x == n then [Accepted(s.all.nodes[n].db, r).value] else []
  {
    assert FlyingAt(s, x) + [] == FlyingAt(s, x);
  }

  lemma AppendPart(s: State, n: Addr, r: Change, q: string, x: Addr)
    requires Sound(s) && C.Up(s.all, n) && Accepted(s.all.nodes[n].db, r).Some? && PartAt(s, q, x)
    ensures PartAt(Next(s, Append(n, r)), q, x)
  {
    var c := Accepted(s.all.nodes[n].db, r).value;
    hide Next, Sound, Part, Replay, Accepted, FlyingAt;
    AppendOne(s, n, r, c, x);
    PartAppended(s.all.nodes[x].log, s.all.run.accepted, FlyingAt(s, x), c, q);
  }

  lemma PartAppended(log: seq<Command>, all: seq<Command>, flying: seq<Command>, c: Command, q: string)
    requires Part(log, q) == Part(all, q) + Part(flying, q)
    ensures Part(log + [c], q) == Part(all, q) + Part(flying + [c], q)
  {
    hide Part;
    PartSnoc(log, c, q);
    PartSnoc(flying, c, q);
  }

  lemma AppendFlier(s: State, n: Addr, r: Change, q: string)
    requires C.Up(s.all, n) && Accepted(s.all.nodes[n].db, r).Some?
    requires OneFlier(s, q) && Alone(s, n, r)
    ensures OneFlier(Next(s, Append(n, r)), q)
  {
    var t, c := Next(s, Append(n, r)), Accepted(s.all.nodes[n].db, r).value;
    AppendedOnQueue(s.all.nodes[n].db, r, c);
    hide Next, Accepted, FlyingAt, Part;
    forall x
      ensures Part(FlyingAt(t, x), q) == Part(FlyingAt(s, x), q) + if x == n && c.queue == q then [c] else []
    {
      AppendFlying(s, n, r, x);
      PartSnoc(FlyingAt(s, x), c, q);
      assert FlyingAt(s, x) + [] == FlyingAt(s, x) && Part(FlyingAt(s, x), q) + [] == Part(FlyingAt(s, x), q);
    }
  }

  lemma AppendInOrder(s: State, n: Addr, r: Change, q: string)
    requires Sound(s) && InOrder(s, q) && Alone(s, n, r)
    ensures InOrder(Next(s, Append(n, r)), q)
  {
    AppendKeepsList(s, n, r);
    if C.Up(s.all, n) && Accepted(s.all.nodes[n].db, r).Some? {
      AppendFlier(s, n, r, q);
      hide Next, Sound, OneFlier, PartAt, Alone, Accepted;
      forall x | x in Joined(s) && x !in s.all.dead
        ensures PartAt(Next(s, Append(n, r)), q, x)
      {
        AppendPart(s, n, r, q, x);
      }
    }
  }

  /** An arrival that reaches all, at one member. */
  lemma ArriveAt(s: State, n: Addr, x: Addr)
    requires Sound(s) && FlyingAt(s, n) != [] && C.ReachesAll(s.all, n) && Member(s, x)
    ensures var t, c := Next(s, Arrive(n)), FlyingAt(s, n)[0];
            && t.all.run.accepted == s.all.run.accepted + [c] && x in t.all.nodes
            && t.all.nodes[x].log == s.all.nodes[x].log + (if x == n then [] else [c])
  {
    var c := FlyingAt(s, n)[0];
    assert Copies(s, n, x) == if x == n then 0 else 1;
    hide Next, Sound, C.ReachesAll;
    ArriveChanges(s, n);
    ArriveOne(s, n, x);
    assert C.Times(c, 0) == [] && C.Times(c, 1) == [c];
  }

  lemma ArriveFlying(s: State, n: Addr, x: Addr)
    requires FlyingAt(s, n) != []
    ensures FlyingAt(Next(s, Arrive(n)), x) == if x == n then FlyingAt(s, n)[1..] else FlyingAt(s, x)
  {
  }

  lemma PartArrived(log: seq<Command>, all: seq<Command>, flying: seq<Command>, c: Command, q: string)
    requires Part(log, q) == Part(all, q) + Part(flying, q)
    ensures flying != [] && flying[0] == c ==> Part(log, q) == Part(all + [c], q) + Part(flying[1..], q)
    ensures c.queue != q || Part(flying, q) == [] ==> Part(log + [c], q) == Part(all + [c], q) + Part(flying, q)
  {
    PartSnoc(log, c, q);
    PartSnoc(all, c, q);
    if flying != [] { HeadPart(flying, q); }
  }

  lemma ArrivePart(s: State, n: Addr, q: string, x: Addr)
    requires Sound(s) && FlyingAt(s, n) != [] && C.ReachesAll(s.all, n) && OneFlier(s, q)
    requires Member(s, x) && PartAt(s, q, x)
    ensures PartAt(Next(s, Arrive(n)), q, x)
  {
    var c, log := FlyingAt(s, n)[0], s.all.nodes[x].log;
    HeadPart(FlyingAt(s, n), q);
    assert c.queue == q && x != n ==> Part(FlyingAt(s, x), q) == [];
    hide Next, Sound, Part, FlyingAt, OneFlier, C.ReachesAll;
    ArriveAt(s, n, x);
    ArriveFlying(s, n, x);
    PartArrived(log, s.all.run.accepted, FlyingAt(s, x), c, q);
    assert log + [] == log;
  }

  lemma ArriveFlier(s: State, n: Addr, q: string)
    requires FlyingAt(s, n) != [] && OneFlier(s, q)
    ensures OneFlier(Next(s, Arrive(n)), q)
  {
    var t := Next(s, Arrive(n));
    HeadPart(FlyingAt(s, n), q);
    hide Next, Part, FlyingAt;
    forall x
      ensures Part(FlyingAt(s, x), q) == [] ==> Part(FlyingAt(t, x), q) == []
    {
      ArriveFlying(s, n, x);
    }
  }

  lemma ArriveInOrder(s: State, n: Addr, q: string)
    requires Sound(s) && InOrder(s, q) && FlyingAt(s, n) != [] && C.ReachesAll(s.all, n)
    ensures InOrder(Next(s, Arrive(n)), q)
  {
    ArriveChanges(s, n);
    ArriveFlier(s, n, q);
    hide Next, Sound, OneFlier, C.ReachesAll, FlyingAt;
    forall x | x in Joined(s) && x !in s.all.dead
      ensures PartAt(Next(s, Arrive(n)), q, x)
    {
      assert PartAt(s, q, x);
      ArrivePart(s, n, q, x);
    }
  }

  lemma LoseInOrder(s: State, n: Addr, q: string)
    requires InOrder(s, q)
    ensures InOrder(Next(s, Lose(n)), q)
  {
    var t := Next(s, Lose(n));
    assert Part([], q) == [];
    hide Part;
    assert forall x :: FlyingAt(t, x) == FlyingAt(s, x) || FlyingAt(t, x) == [];
    assert OneFlier(t, q);
    assert forall x :: x in Joined(t) && x !in t.all.dead ==> FlyingAt(t, x) == FlyingAt(s, x);
    assert forall x :: x in Joined(t) && x !in t.all.dead ==> PartAt(s, q, x);
  }

  /** A member after an event other than a change: it was a member before and has logged nothing, or it has
      each queue's commands in order. */
  ghost predicate Left(s: State, t: State, x: Addr) {
    x in t.all.nodes
    && ((x in Joined(s) && x !in s.all.dead && x in s.all.nodes && t.all.nodes[x].log == s.all.nodes[x].log)
        || InParts(t.all.nodes[x].log, t.all.run.accepted, FlyingAt(t, x)))
  }

  lemma OtherLeaves(s: State, e: Event, x: Addr)
    requires Sound(s) && Conserved(s) && Orderly(s, Other(e))
    requires var t := Next(s, Other(e)); x in Joined(t) && x !in t.all.dead
    ensures Left(s, Next(s, Other(e)), x)
  {
    C.SameHistory(s.all, e);
    if e == C.Joins(x) && C.Up(s.all, x) {
      JoinLeaves(s, x);
    } else if e == C.Starts(x) {
    } else {
      StaysMember(s, e, x);
      hide Next, C.Next, Sound, Fits, C.Added;
      IsMember(s, x);
      MemberKeepsLog(s, e, x);
      assert Next(s, Other(e)).all == C.Next(s.all, e) by { OtherIs(s, e); }
    }
  }

  lemma OtherIs(s: State, e: Event)
    ensures Next(s, Other(e)) == s.(all := C.Next(s.all, e))
  {
  }

  lemma StaysMember(s: State, e: Event, x: Addr)
    requires e != C.Starts(x) && (e == C.Joins(x) ==> !C.Up(s.all, x))
    requires var t := Next(s, Other(e)); x in Joined(t) && x !in t.all.dead
    ensures x in Joined(s) && x !in s.all.dead
    ensures Conserved(s) ==> e != C.Joins(x)
  {
  }

  lemma JoinLeaves(s: State, x: Addr)
    requires Sound(s) && C.Up(s.all, x) && Orderly(s, Other(C.Joins(x)))
    ensures Left(s, Next(s, Other(C.Joins(x))), x)
  {
    C.SameHistory(s.all, C.Joins(x));
    C.LogGrows(s.all, C.Joins(x), x);
    hide Sound, C.JoinNode, Part, Fits;
  }

  lemma OtherInOrder(s: State, e: Event, q: string)
    requires Sound(s) && Conserved(s) && InOrder(s, q) && Orderly(s, Other(e))
    ensures InOrder(Next(s, Other(e)), q)
  {
    var t := Next(s, Other(e));
    C.SameHistory(s.all, e);
    OtherIs(s, e);
    hide Next, C.Next, Part, Sound, Conserved, Orderly, Fits;
    forall x | x in Joined(t) && x !in t.all.dead
      ensures PartAt(t, q, x)
    {
      OtherLeaves(s, e, x);
    }
    assert forall x :: FlyingAt(t, x) == FlyingAt(s, x);
  }

  lemma StepInOrder(s: State, a: Step, q: string)
    requires Sound(s) && Conserved(s) && InOrder(s, q) && Quiet(s, a)
    ensures InOrder(Next(s, a), q)
  {
    hide Sound, Conserved, InOrder, Alone;
    match a
    case Append(n, r) => AppendInOrder(s, n, r, q);
    case Arrive(n) => if FlyingAt(s, n) != [] { ArriveInOrder(s, n, q); }
    case Lose(n) => LoseInOrder(s, n, q);
    case Other(e) => OtherInOrder(s, e, q);
  }

  ghost predicate QuietThrough(s: State, run: seq<Step>, n: nat)
    requires n <= |run|
  {
    n == 0 || (QuietThrough(s, run, n - 1) && Quiet(After(s, run, n - 1), run[n - 1]))
  }

  lemma {:induction false} RunInOrder(s: State, run: seq<Step>, n: nat, q: string)
    requires Sound(s) && Conserved(s) && InOrder(s, q) && n <= |run| && QuietThrough(s, run, n)
    ensures Conserved(After(s, run, n)) && InOrder(After(s, run, n), q)
  {
    hide Sound, InOrder, Next, Orderly, Alone, Conserved, Harmless;
    if n > 0 {
      RunInOrder(s, run, n - 1, q);
      RunSound(s, run, n - 1);
      OrderlyIsHarmless(After(s, run, n - 1), run[n - 1]);
      StepConservesExactly(After(s, run, n - 1), run[n - 1]);
      StepInOrder(After(s, run, n - 1), run[n - 1], q);
    }
  }

  /** Nothing is in flight, and every member has the whole history: so it is at the start, and after any run
      without overlaps. */
  ghost predicate Settled(s: State) {
    C.Agreed(s.all) && forall n :: FlyingAt(s, n) == []
  }

  lemma InitSettled()
    ensures Sound(INIT) && Settled(INIT)
  {
  }

  lemma SettledInOrder(s: State, q: string)
    requires Settled(s)
    ensures Conserved(s) && InOrder(s, q)
  {
    assert Part([], q) == [];
  }

  /** Agreement over whole runs of overlapping changes, crashes, recoveries, joins and flushes: if all steps
      are quiet, then in every state of the run any two members with nothing in flight have the same commands
      of each queue in the same order, and equal stores. */
  lemma {:induction false} QuietStoresEqual(s: State, run: seq<Step>, n: nat, a: Addr, b: Addr)
    requires Sound(s) && Settled(s) && n <= |run| && QuietThrough(s, run, n)
    requires var t := After(s, run, n);
             Member(t, a) && Member(t, b) && FlyingAt(t, a) == FlyingAt(t, b) == []
    ensures forall q :: Part(After(s, run, n).all.nodes[a].log, q) == Part(After(s, run, n).all.nodes[b].log, q)
    ensures After(s, run, n).all.nodes[a].db == After(s, run, n).all.nodes[b].db
  {
    hide Sound, Next, Settled, After, Part;
    var t := After(s, run, n);
    forall q
      ensures Part(t.all.nodes[a].log, q) == Part(t.all.nodes[b].log, q)
    {
      SettledInOrder(s, q);
      RunInOrder(s, run, n, q);
      assert PartAt(t, q, a) && PartAt(t, q, b);
    }
    SamePartsSameStore(t.all.nodes[a].log, t.all.nodes[b].log);
    StoresReplayed(s, run, n, a);
    StoresReplayed(s, run, n, b);
  }

  /** Node a drops a queue and creates it again while a post of node b to it is under way. Each node waits
      for the master's answer before it serves its next client. */
  function DropCreatePost(a: Addr, b: Addr, q: string, text: string): seq<Step> {
    [Append(a, Drop(q)), Append(b, Post(q, text)), Arrive(a), Append(a, Create(q)), Arrive(a), Arrive(b)]
  }

  lemma SixSteps(s: State, run: seq<Step>)
    requires |run| == 6
    ensures After(s, run, 6)
         == Next(Next(Next(Next(Next(Next(s, run[0]), run[1]), run[2]), run[3]), run[4]), run[5])
  {
    hide Next;
    assert After(s, run, 2) == Next(After(s, run, 1), run[1]) && After(s, run, 1) == Next(s, run[0]);
    assert After(s, run, 4) == Next(After(s, run, 3), run[3]) && After(s, run, 3) == Next(After(s, run, 2), run[2]);
    assert After(s, run, 5) == Next(After(s, run, 4), run[4]);
  }

  lemma AppendsAccepted(own: C.Replica, other: C.Replica, q: string, text: string)
    requires q in own.db && q in other.db && own.db == Replay(own.log) && other.db == Replay(other.log)
    ensures 1 <= NewId(other.db[q], -1)
    ensures Accepted(own.db, Drop(q)) == Some(DeleteQueue(q))
    ensures Accepted(Logged(own, DeleteQueue(q)).db, Create(q)) == Some(CreateQueue(q))
    ensures Accepted(other.db, Post(q, text)) == Some(PutMessage(q, text, NewId(other.db[q], -1)))
  {
    ReplayOk(other.log);
    AutoIdIsFresh(other.db, q, text);
    LoggedApplies(own, DeleteQueue(q));
  }

  /** Nodes a and b append, and a's command arrives. */
  lemma FirstThree(s: State, a: Addr, r: Change, c: Command, b: Addr, t: Change, d: Command,
           own: C.Replica, other: C.Replica)
    requires Sees(s, a, own, []) && Sees(s, b, other, []) && Passes(a, b)
    requires Accepted(own.db, r) == Some(c) && Accepted(other.db, t) == Some(d)
    ensures var u := Next(Next(Next(s, Append(a, r)), Append(b, t)), Arrive(a));
            Sees(u, a, Logged(own, c), []) && Sees(u, b, Logged(Logged(other, d), c), [d])
  {
    hide Next, Sees, Accepted, Logged;
    assert [] + [c] == [c] && [] + [d] == [d] && [c][1..] == [];
    AppendSees(s, a, own, [], r, c, b, other, []);
    AppendSees(Next(s, Append(a, r)), b, other, [], t, d, a, Logged(own, c), [c]);
    ArriveSees(Next(Next(s, Append(a, r)), Append(b, t)), a, Logged(own, c), [c], b, Logged(other, d), [d]);
  }

  /** Node a appends again; then everything arrives. */
  lemma LastThree(s: State, a: Addr, r: Change, c: Command, b: Addr, d: Command, own: C.Replica, other: C.Replica)
    requires Sees(s, a, own, []) && Sees(s, b, other, [d]) && Passes(a, b) && Accepted(own.db, r) == Some(c)
    ensures var u := Next(Next(Next(s, Append(a, r)), Arrive(a)), Arrive(b));
            Sees(u, a, Logged(Logged(own, c), d), []) && Sees(u, b, Logged(other, c), [])
  {
    hide Next, Sees, Accepted, Logged;
    assert [] + [c] == [c] && [d][1..] == [] && [c][1..] == [];
    AppendSees(s, a, own, [], r, c, b, other, [d]);
    ArriveSees(Next(s, Append(a, r)), a, Logged(own, c), [c], b, other, [d]);
    ArriveSees(Next(Next(s, Append(a, r)), Arrive(a)), b, Logged(other, c), [d], a, Logged(own, c), []);
  }

  lemma TwoMeetOne(s: State, a: Addr, q: string, text: string, b: Addr, d: Command, own: C.Replica, other: C.Replica)
    requires Sees(s, a, own, []) && Sees(s, b, other, []) && Passes(a, b)
    requires Accepted(own.db, Drop(q)) == Some(DeleteQueue(q)) && Accepted(other.db, Post(q, text)) == Some(d)
    requires Accepted(Logged(own, DeleteQueue(q)).db, Create(q)) == Some(CreateQueue(q))
    ensures var u, drop, create := After(s, DropCreatePost(a, b, q, text), 6), DeleteQueue(q), CreateQueue(q);
            && Sees(u, a, Logged(Logged(Logged(own, drop), create), d), [])
            && Sees(u, b, Logged(Logged(Logged(other, d), drop), create), [])
  {
    SixSteps(s, DropCreatePost(a, b, q, text));
    hide Next, Sees, Accepted, Logged, After;
    FirstThree(s, a, Drop(q), DeleteQueue(q), b, Post(q, text), d, own, other);
    LastThree(Next(Next(Next(s, Append(a, Drop(q))), Append(b, Post(q, text))), Arrive(a)),
              a, Create(q), CreateQueue(q), b, d, Logged(own, DeleteQueue(q)),
              Logged(Logged(other, d), DeleteQueue(q)));
  }

  lemma LoggedApplies(own: C.Replica, c: Command)
    requires own.db == Replay(own.log)
    ensures Logged(own, c).db == Apply(own.db, c) && Logged(own, c).db == Replay(Logged(own, c).log)
  {
    ReplaySnoc(own.log, c);
  }

  lemma LoggedThrice(own: C.Replica, c: Command, d: Command, e: Command)
    requires own.db == Replay(own.log)
    ensures Logged(Logged(Logged(own, c), d), e).db == Apply(Apply(Apply(own.db, c), d), e)
  {
    hide Logged;
    LoggedApplies(own, c);
    LoggedApplies(Logged(own, c), d);
    LoggedApplies(Logged(Logged(own, c), d), e);
  }

  /** Overlaps on one queue can leave stores unequal although no two posts clash: node a drops a queue and
      creates it again while node b posts to it. Once all has arrived, the message is at a and not at b. */
  lemma {:induction false} DropCreatePostDiverges(s: State, a: Addr, b: Addr, q: string, text: string)
    requires Sound(s) && Member(s, a) && Member(s, b) && Passes(a, b)
    requires multiset(Joined(s))[a] == multiset(Joined(s))[b] == 1 && FlyingAt(s, a) == FlyingAt(s, b) == []
    requires q in s.all.nodes[a].db && q in s.all.nodes[b].db
    ensures var t := After(s, DropCreatePost(a, b, q, text), 6);
            && Member(t, a) && Member(t, b) && FlyingAt(t, a) == FlyingAt(t, b) == []
            && t.all.nodes[a].db != t.all.nodes[b].db
  {
    var own, other := s.all.nodes[a], s.all.nodes[b];
    var id := NewId(other.db[q], -1);
    StoreReplays(s, a);
    StoreReplays(s, b);
    assert Sees(s, a, own, []) && Sees(s, b, other, []);
    hide Next, Sound, Accepted, Logged, After, Replay, TablesOk, NewId, Apply;
    AppendsAccepted(own, other, q, text);
    var drop, create, put := DeleteQueue(q), CreateQueue(q), PutMessage(q, text, id);
    TwoMeetOne(s, a, q, text, b, put, own, other);
    LoggedThrice(own, drop, create, put);
    LoggedThrice(other, put, drop, create);
    RecreatedTables(own.db, other.db, q, text, id);
  }

  lemma RecreatedTables(x: Tables, y: Tables, q: string, text: string, id: int)
    requires 1 <= id
    ensures var drop, create, put := DeleteQueue(q), CreateQueue(q), PutMessage(q, text, id);
            Apply(Apply(Apply(x, drop), create), put) != Apply(Apply(Apply(y, put), drop), create)
  {
    var u := Apply(Apply(x, DeleteQueue(q)), CreateQueue(q));
    assert u[q] == Table(0, []);
    assert Apply(u, PutMessage(q, text, id))[q].last == id;
  }
}
