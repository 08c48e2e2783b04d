/** Whole runs in which changes of one queue overlap: which overlaps leave every store what
    the history, and then the node's own changes in flight, make of it. */
module OverlapRuns {
  import opened Basics
  import opened Database
  import opened Commands
  import opened FanOut
  import C = Cluster
  import opened InFlight
  import opened Overlap
  import opened Commuting
  import opened QuietStores

  function LastOf(db: Tables, q: string): int {
    if q in db then db[q].last else 0
  }

  /** An id chosen by a store that log stands for is larger than any before; one found there is not. */
  ghost predicate SaneAt(log: seq<Command>, c: Command) {
    match c
    case PutMessage(q, _, id) => 0 <= LastOf(Replay(log), q) < id
    case DeleteMessage(q, id) => id <= LastOf(Replay(log), q)
    case _ => true
  }

  /** So for each of a node's commands in flight, after the history and its earlier ones. */
  ghost predicate Sane(log: seq<Command>, cs: seq<Command>) {
    forall i :: 0 <= i < |cs| ==> SaneAt(log + cs[..i], cs[i])
  }

  /** The command puts or deletes a message, or is of another queue. */
  predicate Tame(c: Command, q: string) {
    c.queue != q || c.DeleteMessage? || (c.PutMessage? && c.id != -1)
  }

  lemma ApplyLast(db: Tables, c: Command, q: string)
    requires TablesOk(db) && Tame(c, q)
    ensures q in Apply(db, c) <==> q in db
    ensures LastOf(Apply(db, c), q)
         == if c.PutMessage? && c.queue == q && q in db && LastOf(db, q) < c.id then c.id else LastOf(db, q)
  {
    if c.queue != q {
      TouchesOwn(db, c, q);
    } else if q in db {
      hide TablesOk, Put, Deleted;
      if c.PutMessage? { PutMembers(db, q, c.text, c.id); } else { DeletedMembers(db, q, c.id); }
    }
  }

  /** What a sequence of tame commands makes of two counters: the smaller one stays the smaller one. */
  lemma {:induction false} LastsFollow(a: seq<Command>, b: seq<Command>, cs: seq<Command>, q: string)
    requires forall d :: d in cs ==> Tame(d, q)
    requires q in Replay(a) <==> q in Replay(b)
    requires LastOf(Replay(a), q) <= LastOf(Replay(b), q)
    ensures q in Replay(a + cs) <==> q in Replay(b + cs)
    ensures LastOf(Replay(a + cs), q) <= LastOf(Replay(b + cs), q)
    decreases |cs|
  {
    if cs == [] {
      assert a + cs == a && b + cs == b;
    } else {
      hide Apply, Replay, TablesOk;
      var init, d := cs[..|cs| - 1], cs[|cs| - 1];
      assert cs == init + [d] && a + cs == a + init + [d] && b + cs == b + init + [d];
      LastsFollow(a, b, init, q);
      ReplaySnoc(a + init, d);
      ReplaySnoc(b + init, d);
      ReplayOk(a + init);
      ReplayOk(b + init);
      ApplyLast(Replay(a + init), d, q);
      ApplyLast(Replay(b + init), d, q);
    }
  }

  /** Tame commands never take a counter back, and deletes leave it alone. */
  lemma {:induction false} LastGrows(log: seq<Command>, cs: seq<Command>, q: string)
    requires forall d :: d in cs ==> Tame(d, q)
    ensures LastOf(Replay(log), q) <= LastOf(Replay(log + cs), q) && (q in Replay(log) <==> q in Replay(log + cs))
    ensures (forall d :: d in cs && d.queue == q ==> d.DeleteMessage?) ==>
              LastOf(Replay(log), q) == LastOf(Replay(log + cs), q)
    decreases |cs|
  {
    if cs == [] {
      assert log + cs == log;
    } else {
      hide Apply, Replay, TablesOk;
      var init, d := cs[..|cs| - 1], cs[|cs| - 1];
      assert cs == init + [d] && log + cs == log + init + [d];
      LastGrows(log, init, q);
      ReplaySnoc(log + init, d);
      ReplayOk(log + init);
      ApplyLast(Replay(log + init), d, q);
    }
  }

  /** Commands of two nodes that may be under way together: no creation or removal of a queue with another
      command of that queue, and no two puts to one queue. */
  predicate MayOverlap(c: Command, d: Command) {
    c.queue != d.queue || ((c.PutMessage? || c.DeleteMessage?) && (d.PutMessage? || d.DeleteMessage?)
                           && !(c.PutMessage? && d.PutMessage?))
  }

  lemma SaneIds(log: seq<Command>, cs: seq<Command>, d: Command)
    requires Sane(log, cs) && d in cs && d.PutMessage?
    ensures d.id != -1
  {
    var i :| 0 <= i < |cs| && cs[i] == d;
    assert SaneAt(log + cs[..i], cs[i]);
  }

  lemma OverlapsAreTame(log: seq<Command>, cs: seq<Command>, c: Command, q: string)
    requires Sane(log, cs) && c.queue == q && forall d :: d in cs ==> MayOverlap(c, d)
    ensures forall d :: d in cs ==> Tame(d, q)
    ensures c.PutMessage? ==> forall d :: d in cs && d.queue == q ==> d.DeleteMessage?
  {
    forall d | d in cs
      ensures Tame(d, q)
    {
      if d.PutMessage? { SaneIds(log, cs, d); }
    }
  }

  /** What is sane stays so when a command that may overlap it arrives first. */
  lemma SaneAfter(log: seq<Command>, cs: seq<Command>, c: Command)
    requires Sane(log, cs) && SaneAt(log, c) && forall d :: d in cs ==> MayOverlap(c, d)
    ensures Sane(log + [c], cs)
  {
    hide SaneAt, MayOverlap;
    forall i | 0 <= i < |cs|
      ensures SaneAt(log + [c] + cs[..i], cs[i])
    {
      SaneAfterAt(log, cs, c, i);
    }
  }

  lemma SaneAfterAt(log: seq<Command>, cs: seq<Command>, c: Command, i: nat)
    requires i < |cs| && Sane(log, cs) && SaneAt(log, c) && forall d :: d in cs ==> MayOverlap(c, d)
    ensures SaneAt(log + [c] + cs[..i], cs[i])
  {
    var q, init := cs[i].queue, cs[..i];
    assert SaneAt(log + init, cs[i]);
    assert forall d :: d in init ==> d in cs;
    if c.queue != q {
      OtherQueueLast(log, c, init, q);
    } else {
      OverlapsAreTame(log, cs, c, q);
      assert MayOverlap(c, cs[i]);
      assert Tame(c, q);
      hide Replay, Sane;
      ReplaySnoc(log, c);
      ReplayOk(log);
      ApplyLast(Replay(log), c, q);
      LastsFollow(log, log + [c], init, q);
      if c.DeleteMessage? { LastsFollow(log + [c], log, init, q); }
    }
  }

  lemma OtherQueueLast(log: seq<Command>, c: Command, cs: seq<Command>, q: string)
    requires c.queue != q
    ensures LastOf(Replay(log + [c] + cs), q) == LastOf(Replay(log + cs), q)
  {
    hide Replay;
    ReplayPart(log + [c] + cs, q);
    ReplayPart(log + cs, q);
    FilterConcat(log + [c], cs, OnQueue(q));
    FilterConcat(log, cs, OnQueue(q));
    FilterSnoc(log, c, OnQueue(q));
    assert Part(log, q) + [] == Part(log, q);
    assert TableOf(Replay(log + [c] + cs), q) == TableOf(Replay(log + cs), q);
  }

  /** The first of a node's commands in flight is independent of all that another node has in flight. */
  lemma FirstIndependent(log: seq<Command>, c: Command, cs: seq<Command>)
    requires SaneAt(log, c) && Sane(log, cs) && forall d :: d in cs ==> MayOverlap(c, d)
    ensures forall d :: d in cs ==> Independent(c, d)
  {
    forall d | d in cs
      ensures Independent(c, d)
    {
      var i :| 0 <= i < |cs| && cs[i] == d;
      assert SaneAt(log + cs[..i], d) && MayOverlap(c, d);
      if c.queue == d.queue {
        OverlapsAreTame(log, cs, c, c.queue);
        LastGrows(log, cs[..i], c.queue);
      }
    }
  }

  /** Node x's store is what the history makes of an empty one, and then its own commands in flight. */
  ghost predicate StoreAt(s: State, x: Addr) {
    x in s.all.nodes && s.all.nodes[x].db == Replay(s.all.run.accepted + FlyingAt(s, x))
  }

  ghost predicate StoresFit(s: State) {
    forall x :: x in Joined(s) && x !in s.all.dead ==> StoreAt(s, x)
  }

  /** An arriving command finds other commands in flight at a member, and makes the same of its store after
      them as it would before them. */
  ghost predicate PassableAt(s: State, n: Addr, x: Addr)
    requires FlyingAt(s, n) != []
  {
    var all, c := s.all.run.accepted, FlyingAt(s, n)[0];
    Apply(Replay(all + FlyingAt(s, x)), c) == Replay(all + [c] + FlyingAt(s, x))
  }

  ghost predicate Passable(s: State, a: Step) {
    a.Arrive? && FlyingAt(s, a.origin) != [] ==>
      forall x :: x in Joined(s) && x !in s.all.dead && x != a.origin ==> PassableAt(s, a.origin, x)
  }

  lemma LoggedStands(own: C.Replica, all: seq<Command>, flying: seq<Command>, c: Command)
    requires own.db == Replay(own.log) == Replay(all + flying)
    ensures Logged(own, c).db == Replay(all + (flying + [c]))
  {
    LoggedApplies(own, c);
    ReplaySnoc(all + flying, c);
    assert all + flying + [c] == all + (flying + [c]);
  }

  lemma AppendStore(s: State, n: Addr, r: Change, x: Addr)
    requires Sound(s) && StoreAt(s, x)
    ensures StoreAt(Next(s, Append(n, r)), x)
  {
    if C.Up(s.all, n) && Accepted(s.all.nodes[n].db, r).Some? {
      hide Next, Sound, Accepted, FlyingAt, Replay, TablesOk, Logged;
      var own, c, all := s.all.nodes[x], Accepted(s.all.nodes[n].db, r).value, s.all.run.accepted;
      StoreReplays(s, x);
      AppendOne(s, n, r, c, x);
      LoggedStands(own, all, FlyingAt(s, x), c);
    }
  }

  lemma Splits(all: seq<Command>, cs: seq<Command>)
    requires cs != []
    ensures all + cs == all + [cs[0]] + cs[1..]
  {
  }

  /** What an arrival makes of one member's store. */
  lemma ArriveStoreExactly(s: State, n: Addr, x: Addr)
    requires Sound(s) && FlyingAt(s, n) != [] && C.ReachesAll(s.all, n) && Member(s, x) && StoreAt(s, x)
    ensures StoreAt(Next(s, Arrive(n)), x) <==> x == n || PassableAt(s, n, x)
  {
    hide Next, Sound, Replay, TablesOk, FlyingAt, C.ReachesAll;
    var c, log := FlyingAt(s, n)[0], s.all.nodes[x].log;
    StoreReplays(s, x);
    ArriveSound(s, n);
    ArriveAt(s, n, x);
    ArriveFlying(s, n, x);
    StoreReplays(Next(s, Arrive(n)), x);
    Splits(s.all.run.accepted, FlyingAt(s, n));
    ReplaySnoc(log, c);
    assert log + [] == log;
  }

  lemma ArriveStoresExactly(s: State, n: Addr)
    requires Sound(s) && StoresFit(s) && FlyingAt(s, n) != [] && C.ReachesAll(s.all, n)
    requires forall x :: x in Joined(s) && x !in s.all.dead ==> x in s.all.nodes
    ensures StoresFit(Next(s, Arrive(n))) <==> Passable(s, Arrive(n))
  {
    var t := Next(s, Arrive(n));
    ArriveChanges(s, n);
    hide Next, Sound, StoreAt, PassableAt, FlyingAt, C.ReachesAll;
    forall x | x in Joined(s) && x !in s.all.dead
      ensures StoreAt(t, x) <==> x == n || PassableAt(s, n, x)
    {
      ArriveStoreExactly(s, n, x);
    }
  }

  lemma AppendStores(s: State, n: Addr, r: Change)
    requires Sound(s) && StoresFit(s)
    ensures StoresFit(Next(s, Append(n, r)))
  {
    AppendKeepsList(s, n, r);
    hide Next, Sound, StoreAt;
    forall x | x in Joined(s) && x !in s.all.dead ensures StoreAt(Next(s, Append(n, r)), x) { AppendStore(s, n, r, x); }
  }

  lemma LoseStores(s: State, n: Addr)
    requires StoresFit(s)
    ensures StoresFit(Next(s, Lose(n)))
  {
    var t := Next(s, Lose(n));
    forall x | x in Joined(t) && x !in t.all.dead
      ensures StoreAt(t, x)
    {
      assert StoreAt(s, x) && FlyingAt(t, x) == FlyingAt(s, x);
    }
  }

  lemma PartsStand(log: seq<Command>, all: seq<Command>, flying: seq<Command>)
    requires InParts(log, all, flying)
    ensures Replay(log) == Replay(all + flying)
  {
    hide Fits, Replay;
    forall q
      ensures Part(log, q) == Part(all + flying, q)
    {
      FilterConcat(all, flying, OnQueue(q));
    }
    SamePartsSameStore(log, all + flying);
  }

  lemma OtherStore(s: State, e: Event, x: Addr)
    requires Sound(s) && Sound(Next(s, Other(e))) && Left(s, Next(s, Other(e)), x)
    requires x in Joined(s) && x !in s.all.dead ==> StoreAt(s, x)
    ensures StoreAt(Next(s, Other(e)), x)
  {
    var t := Next(s, Other(e));
    C.SameHistory(s.all, e);
    OtherIs(s, e);
    StoreReplays(t, x);
    if x in s.all.nodes { StoreReplays(s, x); }
    hide Next, C.Next, Sound, Replay, TablesOk, InParts;
    if InParts(t.all.nodes[x].log, t.all.run.accepted, FlyingAt(t, x)) {
      PartsStand(t.all.nodes[x].log, t.all.run.accepted, FlyingAt(t, x));
    }
  }

  lemma OtherStores(s: State, e: Event)
    requires Sound(s) && Conserved(s) && StoresFit(s) && Orderly(s, Other(e))
    ensures StoresFit(Next(s, Other(e)))
  {
    var t := Next(s, Other(e));
    InFlight.NextSound(s, Other(e));
    hide Next, Sound, Conserved, StoreAt, Orderly, Left;
    forall x | x in Joined(t) && x !in t.all.dead
      ensures StoreAt(t, x)
    {
      OtherLeaves(s, e, x);
      OtherStore(s, e, x);
    }
  }

  lemma MembersAreNodes(s: State)
    requires Conserved(s)
    ensures forall x :: x in Joined(s) && x !in s.all.dead ==> x in s.all.nodes
  {
    hide Fits;
  }

  /** Exactly which orderly steps keep the stores: an arriving command must be able to change places with all
      that other members have in flight. */
  lemma StepKeepsStoresExactly(s: State, a: Step)
    requires Sound(s) && Conserved(s) && StoresFit(s) && Orderly(s, a)
    ensures StoresFit(Next(s, a)) <==> Passable(s, a)
  {
    match a
    case Append(n, r) => hide Sound, Next, StoresFit; AppendStores(s, n, r);
    case Arrive(n) =>
      if FlyingAt(s, n) != [] {
        MembersAreNodes(s);
        hide Sound, Conserved, Next, StoresFit, Passable;
        ArriveStoresExactly(s, n);
      }
    case Lose(n) => hide Sound, Next, StoresFit; LoseStores(s, n);
    case Other(e) => hide Sound, Next, StoresFit, Conserved; OtherStores(s, e);
  }

  ghost predicate OrderlyThrough(s: State, run: seq<Step>, n: nat)
    requires n <= |run|
  {
    n == 0 || (OrderlyThrough(s, run, n - 1) && Orderly(After(s, run, n - 1), run[n - 1]))
  }

  ghost predicate StoresFitThrough(s: State, run: seq<Step>, n: nat)
    requires n <= |run|
  {
    (n == 0 || StoresFitThrough(s, run, n - 1)) && StoresFit(After(s, run, n))
  }

  ghost predicate PassableThrough(s: State, run: seq<Step>, n: nat)
    requires n <= |run|
  {
    n == 0 || (PassableThrough(s, run, n - 1) && Passable(After(s, run, n - 1), run[n - 1]))
  }

  lemma SettledFits(s: State)
    requires Sound(s) && Settled(s)
    ensures Conserved(s) && StoresFit(s)
  {
    SettledInOrder(s, "");
    forall x | x in Joined(s) && x !in s.all.dead
      ensures StoreAt(s, x)
    {
      assert s.all.run.accepted + [] == s.all.run.accepted;
    }
  }

  lemma {:induction false} OrderlyConserves(s: State, run: seq<Step>, n: nat)
    requires Sound(s) && Conserved(s) && n <= |run| && OrderlyThrough(s, run, n)
    ensures Conserved(After(s, run, n)) && Sound(After(s, run, n))
  {
    hide Sound, Next, Conserved, Orderly, Harmless;
    if n > 0 {
      OrderlyConserves(s, run, n - 1);
      OrderlyIsHarmless(After(s, run, n - 1), run[n - 1]);
      StepConservesExactly(After(s, run, n - 1), run[n - 1]);
      InFlight.NextSound(After(s, run, n - 1), run[n - 1]);
    }
  }

  /** In an orderly run, whatever overlaps in it, each member's store is throughout what the history and then
      its own commands in flight make of an empty one, if and only if every arriving command could change
      places with all that the other members had in flight. */
  lemma {:induction false} RunKeepsStoresExactly(s: State, run: seq<Step>, n: nat)
    requires Sound(s) && Settled(s) && n <= |run| && OrderlyThrough(s, run, n)
    ensures StoresFitThrough(s, run, n) <==> PassableThrough(s, run, n)
  {
    SettledFits(s);
    hide Sound, Next, Conserved, Orderly, Settled, StoresFit, Passable;
    if n > 0 {
      RunKeepsStoresExactly(s, run, n - 1);
      OrderlyConserves(s, run, n - 1);
      if StoresFitThrough(s, run, n - 1) {
        assert StoresFit(After(s, run, n - 1));
        StepKeepsStoresExactly(After(s, run, n - 1), run[n - 1]);
      }
    }
  }

  /** What a client's change must meet to be mild: it is made at a member, and what other nodes have in
      flight may overlap it. */
  ghost predicate MildChange(s: State, n: Addr, r: Change) {
    C.Up(s.all, n) && Accepted(s.all.nodes[n].db, r).Some? ==>
      n in Joined(s)
      && forall x, d :: x != n && d in FlyingAt(s, x) ==> MayOverlap(Accepted(s.all.nodes[n].db, r).value, d)
  }

  ghost predicate Mild(s: State, a: Step) {
    Orderly(s, a) && (a.Append? ==> MildChange(s, a.origin, a.change))
  }

  ghost predicate MildThrough(s: State, run: seq<Step>, n: nat)
    requires n <= |run|
  {
    n == 0 || (MildThrough(s, run, n - 1) && Mild(After(s, run, n - 1), run[n - 1]))
  }

  ghost predicate SaneFlights(s: State) {
    forall x :: Sane(s.all.run.accepted, FlyingAt(s, x))
  }

  ghost predicate MildFlights(s: State) {
    forall x, y, c, d :: x != y && c in FlyingAt(s, x) && d in FlyingAt(s, y) ==> MayOverlap(c, d)
  }

  /** What is in flight when all overlaps are mild lets every arrival pass. */
  lemma MildIsPassable(s: State, a: Step)
    requires SaneFlights(s) && MildFlights(s)
    ensures Passable(s, a)
  {
    if a.Arrive? && FlyingAt(s, a.origin) != [] {
      var n, all := a.origin, s.all.run.accepted;
      var c := FlyingAt(s, n)[0];
      forall x | x != n
        ensures PassableAt(s, n, x)
      {
        assert Sane(all, FlyingAt(s, n)) && SaneAt(all + FlyingAt(s, n)[..0], c) && all + [] == all;
        hide FlyingAt, Replay, SaneAt;
        FirstIndependent(all, c, FlyingAt(s, x));
        CommutePast(all, FlyingAt(s, x), c);
      }
    }
  }

  lemma AcceptedIsSane(log: seq<Command>, r: Change, c: Command)
    requires Accepted(Replay(log), r) == Some(c)
    ensures SaneAt(log, c)
  {
    var db := Replay(log);
    ReplayOk(log);
    if c.PutMessage? { AutoIdIsFresh(db, c.queue, c.text); }
    if c.DeleteMessage? { assert TableOk(db[c.queue]); HasRowMeaning(db[c.queue], c.id); }
  }

  lemma SaneSnoc(log: seq<Command>, cs: seq<Command>, c: Command)
    requires Sane(log, cs) && SaneAt(log + cs, c)
    ensures Sane(log, cs + [c])
  {
    hide SaneAt;
    forall i | 0 <= i < |cs + [c]|
      ensures SaneAt(log + (cs + [c])[..i], (cs + [c])[i])
    {
      assert (cs + [c])[..i] == if i < |cs| then cs[..i] else cs;
    }
  }

  lemma SaneTail(log: seq<Command>, cs: seq<Command>)
    requires Sane(log, cs) && cs != []
    ensures Sane(log + [cs[0]], cs[1..])
  {
    hide SaneAt;
    forall i | 0 <= i < |cs[1..]|
      ensures SaneAt(log + [cs[0]] + cs[1..][..i], cs[1..][i])
    {
      assert log + [cs[0]] + cs[1..][..i] == log + cs[..i + 1];
    }
  }

  lemma AppendSane(s: State, n: Addr, r: Change, x: Addr)
    requires Sound(s) && C.Up(s.all, n) && Accepted(s.all.nodes[n].db, r).Some? && StoreAt(s, n) && SaneFlights(s)
    ensures Sane(s.all.run.accepted, FlyingAt(Next(s, Append(n, r)), x))
  {
    var c := Accepted(s.all.nodes[n].db, r).value;
    hide Next, Sane, SaneAt, Accepted, Replay, FlyingAt;
    AppendFlying(s, n, r, x);
    assert FlyingAt(s, x) + [] == FlyingAt(s, x);
    if x == n {
      AcceptedIsSane(s.all.run.accepted + FlyingAt(s, n), r, c);
      SaneSnoc(s.all.run.accepted, FlyingAt(s, n), c);
    }
  }

  lemma AppendFlies(s: State, n: Addr, r: Change, x: Addr, d: Command)
    requires C.Up(s.all, n) && Accepted(s.all.nodes[n].db, r).Some? && d in FlyingAt(Next(s, Append(n, r)), x)
    ensures d in FlyingAt(s, x) || (x == n && d == Accepted(s.all.nodes[n].db, r).value)
  {
    AppendFlying(s, n, r, x);
  }

  lemma AppendOverlaps(s: State, n: Addr, r: Change, x: Addr, y: Addr, c: Command, d: Command)
    requires C.Up(s.all, n) && Accepted(s.all.nodes[n].db, r).Some? && MildFlights(s) && MildChange(s, n, r) && x != y
    requires c in FlyingAt(Next(s, Append(n, r)), x) && d in FlyingAt(Next(s, Append(n, r)), y)
    ensures MayOverlap(c, d)
  {
    hide Next, FlyingAt, Accepted;
    AppendFlies(s, n, r, x, c);
    AppendFlies(s, n, r, y, d);
    if c !in FlyingAt(s, x) { assert MayOverlap(c, d); } else if d !in FlyingAt(s, y) { assert MayOverlap(d, c); }
  }

  lemma AppendKeepsMild(s: State, n: Addr, r: Change)
    requires Sound(s) && StoresFit(s) && SaneFlights(s) && MildFlights(s) && MildChange(s, n, r)
    ensures SaneFlights(Next(s, Append(n, r))) && MildFlights(Next(s, Append(n, r)))
  {
    if C.Up(s.all, n) && Accepted(s.all.nodes[n].db, r).Some? {
      var t := Next(s, Append(n, r));
      assert t.all.run == s.all.run && StoreAt(s, n);
      hide Next, Sane, StoreAt, FlyingAt, Accepted, MayOverlap, StoresFit, Sound;
      forall x ensures Sane(t.all.run.accepted, FlyingAt(t, x)) { AppendSane(s, n, r, x); }
      forall x, y, c, d | x != y && c in FlyingAt(t, x) && d in FlyingAt(t, y)
        ensures MayOverlap(c, d)
      {
        AppendOverlaps(s, n, r, x, y, c, d);
      }
    }
  }

  lemma ArriveKeepsMild(s: State, n: Addr)
    requires FlyingAt(s, n) != [] && SaneFlights(s) && MildFlights(s)
    ensures SaneFlights(Next(s, Arrive(n))) && MildFlights(Next(s, Arrive(n)))
  {
    var t, all := Next(s, Arrive(n)), s.all.run.accepted;
    var c := FlyingAt(s, n)[0];
    assert Sane(all, FlyingAt(s, n)) && SaneAt(all + FlyingAt(s, n)[..0], c) && all + [] == all;
    ArriveChanges(s, n);
    hide Next, Sane, SaneAt, FlyingAt, MayOverlap;
    forall x
      ensures Sane(t.all.run.accepted, FlyingAt(t, x))
      ensures forall d :: d in FlyingAt(t, x) ==> d in FlyingAt(s, x)
    {
      ArriveFlying(s, n, x);
      if x == n { SaneTail(all, FlyingAt(s, n)); } else { SaneAfter(all, FlyingAt(s, x), c); }
    }
  }

  lemma StepKeepsMild(s: State, a: Step)
    requires Sound(s) && StoresFit(s) && SaneFlights(s) && MildFlights(s) && Mild(s, a)
    ensures SaneFlights(Next(s, a)) && MildFlights(Next(s, a))
  {
    match a
    case Append(n, r) => hide Sound, Next, StoresFit; AppendKeepsMild(s, n, r);
    case Arrive(n) => if FlyingAt(s, n) != [] { hide Sound, Next, StoresFit; ArriveKeepsMild(s, n); }
    case Lose(n) => LoseKeepsMild(s, n);
    case Other(e) => hide Sound, Next, StoresFit; OtherKeepsMild(s, e);
  }

  lemma OtherKeepsMild(s: State, e: Event)
    requires SaneFlights(s) && MildFlights(s)
    ensures SaneFlights(Next(s, Other(e))) && MildFlights(Next(s, Other(e)))
  {
    var t := Next(s, Other(e));
    C.SameHistory(s.all, e);
    OtherIs(s, e);
    hide Next, C.Next, Sane;
    assert forall x :: FlyingAt(t, x) == FlyingAt(s, x);
  }

  lemma LoseKeepsMild(s: State, n: Addr)
    requires SaneFlights(s) && MildFlights(s)
    ensures SaneFlights(Next(s, Lose(n))) && MildFlights(Next(s, Lose(n)))
  {
    var t := Next(s, Lose(n));
    assert forall x :: FlyingAt(t, x) == FlyingAt(s, x) || FlyingAt(t, x) == [];
    assert t.all == s.all;
    assert Sane(t.all.run.accepted, []);
    hide Next, Sane, FlyingAt;
  }

  lemma {:induction false} MildRunOk(s: State, run: seq<Step>, n: nat)
    requires Sound(s) && Settled(s) && n <= |run| && MildThrough(s, run, n)
    ensures var t := After(s, run, n); Sound(t) && Conserved(t) && StoresFit(t) && SaneFlights(t) && MildFlights(t)
  {
    if n == 0 {
      SettledFits(s);
    } else {
      MildRunOk(s, run, n - 1);
      hide Sound, Settled, Next, Conserved, StoresFit, SaneFlights, MildFlights, Orderly, Passable, Harmless;
      var t, a := After(s, run, n - 1), run[n - 1];
      InFlight.NextSound(t, a);
      OrderlyIsHarmless(t, a);
      StepConservesExactly(t, a);
      MildIsPassable(t, a);
      StepKeepsStoresExactly(t, a);
      StepKeepsMild(t, a);
    }
  }

  /** Agreement over whole runs in which changes of one queue overlap: if clients change queues at members
      only, no creation or removal of a queue overlaps another change of it, and no two posts to one queue
      overlap, then in every state of the run the store of any member with nothing in flight is the replay of
      the history, though its log may be in another order. */
  lemma {:induction false} MildStoresReplay(s: State, run: seq<Step>, n: nat, a: Addr)
    requires Sound(s) && Settled(s) && n <= |run| && MildThrough(s, run, n)
    requires Member(After(s, run, n), a) && FlyingAt(After(s, run, n), a) == []
    ensures After(s, run, n).all.nodes[a].db == Replay(After(s, run, n).all.run.accepted)
  {
    var t := After(s, run, n);
    MildRunOk(s, run, n);
    hide Sound, Settled, After, Replay, Conserved, SaneFlights, MildFlights;
    assert StoreAt(t, a) && t.all.run.accepted + [] == t.all.run.accepted;
  }
}
