/** Who is joined, over whole runs of joins, changes and probes: how long a silent node
    counts as alive, and that a node that was heard from in time is never taken off the list. */
module Membership {
  import opened Basics
  import opened FanOut
  import opened HeartBeat

  /** listed are the joined nodes, clients the heartbeat's list. */
  datatype State = State(listed: seq<Addr>, clients: seq<Client>)

  /** cur is a reading of the clock, in seconds. GivesUp is a probing thread that has had no answer too often. */
  datatype Step = Joins(node: Addr, cur: int) | Changes(cur: int) | Answers(node: Addr, cur: int) | GivesUp(node: Addr)

  function Next(s: State, a: Step): State {
    match a
    case Joins(n, cur) => State(s.listed + [n], Without(s.clients, n) + [Client(n, 1000 * cur, 10000)])
    case Changes(cur) =>
      var alive := LiveIn(s.clients, cur);
      State(Kept(s.listed, alive), AskedAll(s.clients, Checked(s.listed, alive), cur))
    case Answers(n, cur) => s.(clients := Answered(s.clients, n, cur))
    case GivesUp(n) => s.(clients := Without(s.clients, n))
  }

  const INIT := State([], [])

  function After(run: seq<Step>, n: nat): State
    requires n <= |run|
  {
    if n == 0 then INIT else Next(After(run, n - 1), run[n - 1])
  }

  /** The node is registered, and was last heard from at reading h. */
  ghost predicate Heard(s: State, n: Addr, h: int) {
    OneEach(s.clients) && Client(n, 1000 * h, 10000) in s.clients
  }

  lemma HeardLives(s: State, n: Addr, h: int, cur: int)
    requires Heard(s, n, h)
    ensures Live(s.clients, n, cur) <==> 1000 * cur < 1000 * h + 10000
  {
    var i :| 0 <= i < |s.clients| && s.clients[i] == Client(n, 1000 * h, 10000);
    LiveExactly(s.clients, n, cur);
  }

  lemma NextOneEach(s: State, a: Step)
    requires OneEach(s.clients)
    ensures OneEach(Next(s, a).clients)
  {
    match a
    case Joins(n, cur) => WithoutKeeps(s.clients, n, n, 0); NotThere(s.clients, n);
    case Changes(cur) =>
      hide OneEach;
      AskingIsStable(s.clients, Checked(s.listed, LiveIn(s.clients, cur)), cur, Addr("", 0, "", 0));
    case Answers(n, cur) =>
    case GivesUp(n) => WithoutKeeps(s.clients, n, n, 0);
  }

  lemma {:induction false} RunOneEach(run: seq<Step>, j: nat)
    requires j <= |run|
    ensures OneEach(After(run, j).clients)
  {
    hide OneEach, Next;
    if j > 0 {
      RunOneEach(run, j - 1);
      NextOneEach(After(run, j - 1), run[j - 1]);
    } else {
      assert OneEach([]) by { InitOneEach(); }
    }
  }

  lemma InitOneEach()
    ensures OneEach(INIT.clients)
  {
  }

  /** One step from which the node is heard, or which does not come too late for it. */
  lemma StepHeard(s: State, a: Step, n: Addr, h: int)
    requires OneEach(s.clients)
    ensures a == Joins(n, h) ==> Heard(Next(s, a), n, h) && n in Next(s, a).listed
    ensures a == Answers(n, h) && (exists g :: Heard(s, n, g)) ==> Heard(Next(s, a), n, h)
    ensures Heard(s, n, h) && (a.Changes? || a.node != n) && (a.Changes? ==> 1000 * a.cur < 1000 * h + 10000) ==>
              Heard(Next(s, a), n, h)
    ensures Heard(s, n, h) && n in s.listed && (a.Changes? ==> 1000 * a.cur < 1000 * h + 10000) ==>
              n in Next(s, a).listed
  {
    NextOneEach(s, a);
    if Heard(s, n, h) {
      var x := Client(n, 1000 * h, 10000);
      match a
      case Joins(m, cur) => WithoutExactly(s.clients, m);
      case Changes(cur) =>
        HeardLives(s, n, h, cur);
        if 1000 * cur < 1000 * h + 10000 {
          AskedExactly(s.clients, Checked(s.listed, LiveIn(s.clients, cur)), cur, x);
          KeptMembers(s.listed, LiveIn(s.clients, cur));
        }
      case Answers(m, cur) => if m != n { AnswerKeeps(s.clients, m, cur, x); }
      case GivesUp(m) => WithoutExactly(s.clients, m);
    }
    if a == Answers(n, h) && exists g :: Heard(s, n, g) {
      var g :| Heard(s, n, g);
      AnswerHears(s.clients, n, g, h);
    }
  }

  lemma AnswerKeeps(clients: seq<Client>, m: Addr, cur: int, x: Client)
    requires x in clients && x.node != m
    ensures x in Answered(clients, m, cur)
  {
    var i :| 0 <= i < |clients| && clients[i] == x;
    assert Answered(clients, m, cur)[i] == x;
  }

  lemma AnswerHears(clients: seq<Client>, n: Addr, g: int, h: int)
    requires OneEach(clients) && Client(n, 1000 * g, 10000) in clients
    ensures Client(n, 1000 * h, 10000) in Answered(clients, n, h)
  {
    var i :| 0 <= i < |clients| && clients[i] == Client(n, 1000 * g, 10000);
    assert Place(clients, n) == i && Answered(clients, n, h)[i] == Client(n, 1000 * h, 10000);
  }

  /** The reading at which the node was last heard from during the first j steps, when there is one. */
  function LastHeard(run: seq<Step>, j: nat, n: Addr): Option<int>
    requires j <= |run|
  {
    if j == 0 then None
    else if (run[j - 1].Joins? || run[j - 1].Answers?) && run[j - 1].node == n then Some(run[j - 1].cur)
    else LastHeard(run, j - 1, n)
  }

  /** Since step i the node has not been given up, and no change came as late as ten seconds after it was last
      heard from. */
  ghost predicate InTime(run: seq<Step>, i: nat, j: nat, n: Addr)
    requires i <= j <= |run|
  {
    forall k :: i < k < j ==>
      && run[k] != GivesUp(n)
      && (run[k].Changes? && LastHeard(run, k, n).Some? ==>
            1000 * run[k].cur < 1000 * LastHeard(run, k, n).value + 10000)
  }

  /** A joined node that is heard from in time stays on the list and alive, over any run of joins, answers and
      changes: at any reading of the clock it is alive exactly for the ten seconds after it was last heard from. */
  lemma {:induction false} HeardStays(run: seq<Step>, i: nat, j: nat, n: Addr, t: int)
    requires i < j <= |run| && run[i] == Joins(n, t) && InTime(run, i, j, n)
    ensures LastHeard(run, j, n).Some? && n in After(run, j).listed
    ensures Heard(After(run, j), n, LastHeard(run, j, n).value)
    ensures forall c :: Live(After(run, j).clients, n, c) <==> 1000 * c < 1000 * LastHeard(run, j, n).value + 10000
  {
    hide Next, OneEach, Live, Heard;
    RunOneEach(run, j - 1);
    var s, a := After(run, j - 1), run[j - 1];
    if i + 1 < j {
      assert InTime(run, i, j - 1, n);
      HeardStays(run, i, j - 1, n, t);
      StepHeard(s, a, n, LastHeard(run, j - 1, n).value);
    }
    var h := LastHeard(run, j, n).value;
    StepHeard(s, a, n, h);
    forall c
      ensures Live(After(run, j).clients, n, c) <==> 1000 * c < 1000 * h + 10000
    {
      HeardLives(After(run, j), n, h, c);
    }
  }

  lemma {:induction false} HeardOnce(run: seq<Step>, i: nat, j: nat, n: Addr, t: int)
    requires i < j <= |run| && run[i] == Joins(n, t)
    requires forall k :: i < k < j ==> run[k].Changes? || run[k].node != n
    ensures LastHeard(run, j, n) == Some(t)
  {
    if i + 1 < j { HeardOnce(run, i, j - 1, n, t); }
  }

  /** A node that joined at t and has been silent since is not taken off the list by changes that come less than
      ten seconds later; and at any reading of the clock it is alive if and only if that is so of the reading. */
  lemma JoinedStays(run: seq<Step>, i: nat, j: nat, n: Addr, t: int)
    requires i < j <= |run| && run[i] == Joins(n, t)
    requires forall k :: i < k < j ==>
               if run[k].Changes? then 1000 * run[k].cur < 1000 * t + 10000 else run[k].node != n
    ensures n in After(run, j).listed
    ensures forall c :: Live(After(run, j).clients, n, c) <==> 1000 * c < 1000 * t + 10000
  {
    hide After, Live;
    forall k | i < k <= j
      ensures LastHeard(run, k, n) == Some(t)
    {
      HeardOnce(run, i, k, n, t);
    }
    assert InTime(run, i, j, n);
    HeardStays(run, i, j, n, t);
  }

  /** What is not alive at one reading is not alive at a later one, nor once it has been taken off. */
  lemma StaysDead(s: State, a: Step, n: Addr, t: int)
    requires OneEach(s.clients) && (a.Changes? || a.node != n)
    requires forall c :: Live(s.clients, n, c) ==> 1000 * c < 1000 * t + 10000
    ensures forall c :: Live(Next(s, a).clients, n, c) ==> 1000 * c < 1000 * t + 10000
  {
    var u := Next(s, a);
    NextOneEach(s, a);
    forall c | Live(u.clients, n, c)
      ensures Live(s.clients, n, c)
    {
      LiveExactly(u.clients, n, c);
      LiveExactly(s.clients, n, c);
      var i :| 0 <= i < |u.clients| && u.clients[i].node == n && 1000 * c < u.clients[i].started + u.clients[i].timeout;
      var x := u.clients[i];
      match a
      case Joins(m, cur) => WithoutExactly(s.clients, m);
      case Changes(cur) => AskedExactly(s.clients, Checked(s.listed, LiveIn(s.clients, cur)), cur, x);
      case Answers(m, cur) => assert s.clients[i] == x;
      case GivesUp(m) => WithoutExactly(s.clients, m);
      assert x in s.clients;
    }
  }

  /** Ten seconds after it joined a node that has been silent is dead to every sweep, whatever else has happened:
      it is in no answer of the heartbeat, and a sweep that comes to it takes it off the list. */
  lemma {:induction false} SilentDies(run: seq<Step>, i: nat, j: nat, n: Addr, t: int)
    requires i < j <= |run| && run[i] == Joins(n, t)
    requires forall k :: i < k < j ==> run[k].Changes? || run[k].node != n
    ensures forall c :: Live(After(run, j).clients, n, c) ==> 1000 * c < 1000 * t + 10000
  {
    hide Next, Live, OneEach;
    RunOneEach(run, j - 1);
    if i + 1 < j {
      SilentDies(run, i, j - 1, n, t);
      StaysDead(After(run, j - 1), run[j - 1], n, t);
    } else {
      JoinedStays(run, i, j, n, t);
    }
  }

  /** A sweep takes a dead node that is listed once off the list if the node listed before it is alive, or if it
      is the first. */
  lemma DeadGoes(a: seq<Addr>, n: Addr, b: seq<Addr>, alive: Addr -> bool)
    requires !alive(n) && n !in a && n !in b && (a == [] || alive(a[|a| - 1]))
    ensures n !in Kept(a + [n] + b, alive)
  {
    var rest := [n] + b;
    KeptMembers(b, alive);
    assert rest[1..] == b && (b != [] ==> rest[1] == b[0] && rest[2..] == b[1..]);
    assert n !in Kept(rest, alive) by { if b != [] { KeptMembers(b[1..], alive); } }
    if a == [] {
      assert a + [n] + b == rest;
    } else {
      var init, l := a[..|a| - 1], a[|a| - 1];
      assert a + [n] + b == init + [l] + rest;
      KeptAroundLive(init, l, rest, alive);
      KeptMembers(init, alive);
    }
  }
}
