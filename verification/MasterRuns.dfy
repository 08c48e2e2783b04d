/** Whole runs of the master: requests interleaved with the worker that flushes the
    queue item by item, and with the timers that open the gate. */
module MasterRuns {
  import opened Basics
  import opened Commands
  import opened FanOut
  import opened SyncWorker
  import opened Master

  /** Where the worker is in its pass: left commands still to move, and whether the front one is
      already in the log but not yet off the queue. While it is busy it holds its mutex. */
  datatype Flush = Idle | Busy(left: nat, copied: bool)

  /** accepted is the history: every command the master ever accepted, in order. */
  datatype Run = Run(m: MState, flush: Flush, accepted: seq<Command>)

  datatype Step =
    | Accept(command: Command, dead: set<Addr>)
    | FlushBegin
    | FlushCopy
    | FlushPop
    | FlushEnd
    | Recover(node: Addr, logsize: nat)
    | Join(node: Addr)
    | Timeout(id: string)

  function Alive(dead: set<Addr>): Addr -> bool {
    n => n !in dead
  }

  /** One atomic step. A step that is not enabled changes nothing: a recovery waits for the worker's
      mutex, and the worker for the gate. */
  function Next(s: Run, a: Step): Run {
    match a
    case Accept(c, dead) => s.(m := AcceptNext(s.m, c, Alive(dead)), accepted := s.accepted + [c])
    case FlushBegin => if s.flush.Idle? && s.m.gate.locks <= 0 then s.(flush := Busy(|s.m.queue|, false)) else s
    case FlushCopy =>
      if s.flush.Busy? && 0 < s.flush.left && !s.flush.copied && s.m.queue != [] then
        Run(s.m.(log := s.m.log + [s.m.queue[0]]), Busy(s.flush.left, true), s.accepted)
      else s
    case FlushPop =>
      if s.flush.Busy? && 0 < s.flush.left && s.flush.copied && s.m.queue != [] then
        Run(s.m.(queue := s.m.queue[1..]), Busy(s.flush.left - 1, false), s.accepted)
      else s
    case FlushEnd => if s.flush == Busy(0, false) then s.(flush := Idle) else s
    case Recover(n, logsize) => if s.flush.Idle? then s.(m := RecoverNext(s.m, n)) else s
    case Join(n) => s.(m := JoinNext(s.m, n))
    case Timeout(id) => s.(m := s.m.(gate := Decremented(s.m.gate, id)))
  }

  const INIT := Run(START, Idle, [])

  function After(run: seq<Step>, n: nat): Run
    requires n <= |run|
  {
    if n == 0 then INIT else Next(After(run, n - 1), run[n - 1])
  }

  /** What is queued and not yet in the log. */
  function Pending(s: Run): seq<Command> {
    if s.flush.Busy? && s.flush.copied && s.m.queue != [] then s.m.queue[1..] else s.m.queue
  }

  ghost predicate FlushOk(s: Run) {
    s.flush.Busy? ==>
      && s.m.gate.ids == []
      && s.flush.left <= |s.m.queue|
      && (s.flush.copied ==> 0 < s.flush.left && s.m.log != [] && s.m.log[|s.m.log| - 1] == s.m.queue[0])
  }

  ghost predicate Conserved(s: Run) {
    s.m.log + Pending(s) == s.accepted
  }

  ghost predicate Ok(s: Run) {
    GateOk(s.m.gate) && FlushOk(s) && Conserved(s)
  }

  lemma NextConserves(s: Run, a: Step)
    requires Ok(s)
    ensures Conserved(Next(s, a))
  {
    var t := Next(s, a);
    match a
    case Accept(c, dead) =>
      assert Pending(t) == Pending(s) + [c];
    case FlushCopy =>
      if s.flush.Busy? && 0 < s.flush.left && !s.flush.copied {
        assert s.m.queue == [s.m.queue[0]] + s.m.queue[1..];
      }
    case _ =>
  }

  lemma NextOk(s: Run, a: Step)
    requires Ok(s)
    ensures Ok(Next(s, a))
  {
    NextConserves(s, a);
    if a.Recover? { IncrementKeeps(s.m.gate, Tid(a.node)); }
    if a.Join? { DecrementKeeps(s.m.gate, Tid(a.node)); }
    if a.Timeout? { DecrementKeeps(s.m.gate, a.id); }
  }

  /** Log conservation: in every state of every run, the master's log followed by what is pending is
      exactly the accepted commands in order, and the gate's count and holders agree. */
  lemma {:induction false} RunOk(run: seq<Step>, n: nat)
    requires n <= |run|
    ensures Ok(After(run, n))
  {
    if n > 0 {
      RunOk(run, n - 1);
      NextOk(After(run, n - 1), run[n - 1]);
    }
  }

  /** Who holds the gate after a step: a recovery adds its node's name, a join takes its node's name away, a
      timer its own id, and nothing else makes a difference. */
  lemma GateEntries(s: Run, a: Step, x: string)
    requires Ok(s)
    ensures x in Next(s, a).m.gate.ids
       <==> match a
            case Recover(n, _) => x in s.m.gate.ids || (s.flush.Idle? && x == Tid(n))
            case Join(n) => x in s.m.gate.ids && x != Tid(n)
            case Timeout(id) => x in s.m.gate.ids && x != id
            case _ => x in s.m.gate.ids
  {
    match a
    case Recover(n, _) => RecoverHolds(s.m, n);
    case Join(n) => JoinReleases(s.m, n);
    case Timeout(id) => DecrementKeeps(s.m.gate, id);
    case _ =>
  }

  /** The steps that can take n's gate entry away: the join of a node of that gate name, and a timer for it. */
  predicate Opens(a: Step, n: Addr) {
    (a.Join? && Tid(a.node) == Tid(n)) || (a.Timeout? && a.id == Tid(n))
  }

  /** While anyone holds the gate, no step moves a command into the log or off the queue. */
  lemma GateHoldsFlush(s: Run, a: Step)
    requires Ok(s) && s.m.gate.ids != []
    ensures Next(s, a).m.log == s.m.log && Next(s, a).flush == s.flush == Idle
    ensures s.m.queue <= Next(s, a).m.queue
  {
  }

  function Popped(s: Run): int {
    |s.accepted| - |s.m.queue|
  }

  /** The queue is always the end of the history, even between copying a command and popping it. */
  lemma QueueIsTail(s: Run)
    requires Ok(s)
    ensures 0 <= Popped(s) && s.m.queue == s.accepted[Popped(s)..] && s.m.log <= s.accepted
  {
    assert s.accepted == s.m.log + Pending(s);
    if s.flush.Busy? && s.flush.copied {
      var log := s.m.log;
      assert s.accepted == log[..|log| - 1] + s.m.queue;
    }
  }

  lemma {:induction false} HistoryGrows(run: seq<Step>, i: nat, j: nat)
    requires i <= j <= |run|
    ensures After(run, i).accepted <= After(run, j).accepted
    ensures After(run, i).m.log <= After(run, j).m.log
  {
    hide Next;
    if i < j {
      HistoryGrows(run, i, j - 1);
      NextGrows(After(run, j - 1), run[j - 1]);
    }
  }

  lemma NextGrows(s: Run, a: Step)
    ensures s.accepted <= Next(s, a).accepted && s.m.log <= Next(s, a).m.log
  {
  }

  /** What recovery at step i and join at step j dispatch to the node, in order. */
  function Dispatched(run: seq<Step>, i: nat, j: nat): seq<Command>
    requires i <= |run| && j < |run| && run[j].Join? && i < |run| && run[i].Recover?
  {
    var k, log := run[i].logsize, After(run, i).m.log;
    (if |log| < k then [] else Tail(log, |log| - k)) + After(run, j).m.queue
  }

  /** Dispatched is what the two handlers send. */
  lemma DispatchedIsSent(run: seq<Step>, i: nat, j: nat)
    requires i < j < |run| && run[i].Recover? && run[j] == Join(run[i].node)
    ensures RecoverSends(After(run, i).m, run[i].node, run[i].logsize) + JoinSends(After(run, j).m, run[j].node)
         == ToOne(run[i].node, Dispatched(run, i, j))
  {
  }

  /** Exactly when recovery and join send a node whose log is the first k accepted commands precisely the
      commands it lacks, once each and in order, in any run at all: when by the time it joins the
      worker has taken off the queue just the commands the recovery covered. */
  lemma {:induction false} CatchUpExactly(run: seq<Step>, i: nat, j: nat)
    requires i < j < |run| && run[i].Recover? && run[j] == Join(run[i].node)
    requires run[i].logsize <= |After(run, i).accepted|
    ensures var k, size := run[i].logsize, |After(run, i).m.log|;
            && k <= |After(run, j).accepted|
            && (Dispatched(run, i, j) == After(run, j).accepted[k..]
                <==> Popped(After(run, j)) == if k < size then size else k)
  {
    var k, log, all := run[i].logsize, After(run, i).m.log, After(run, j).accepted;
    RunOk(run, i);
    RunOk(run, j);
    QueueIsTail(After(run, i));
    QueueIsTail(After(run, j));
    HistoryGrows(run, i, j);
    var p := Popped(After(run, j));
    assert log <= all;
    if k <= |log| {
      assert Tail(log, |log| - k) == log[k..] == all[k..|log|];
      assert all[k..] == all[k..|log|] + all[|log|..];
    }
  }

  lemma {:induction false} HeldGateKeepsLog(run: seq<Step>, i: nat, j: nat)
    requires i < j <= |run| && run[i].Recover? && After(run, i).flush.Idle?
    requires forall t :: i < t < j ==> Tid(run[i].node) in After(run, t).m.gate.ids
    ensures After(run, j).m.log == After(run, i).m.log && After(run, j).flush.Idle?
  {
    hide Next, Ok;
    RunOk(run, j - 1);
    assert After(run, j) == Next(After(run, j - 1), run[j - 1]);
    if i + 1 < j {
      HeldGateKeepsLog(run, i, j - 1);
      GateHoldsFlush(After(run, j - 1), run[j - 1]);
    } else {
      RecoverKeepsLog(After(run, i), run[i]);
    }
  }

  lemma RecoverKeepsLog(s: Run, a: Step)
    requires a.Recover?
    ensures Next(s, a).m.log == s.m.log && Next(s, a).flush == s.flush
  {
  }

  /** Exact catch-up: when the gate entry is not released before the join, however many commands are
      accepted and however often the worker tries in between, the node is sent exactly what it lacks if
      and only if its log was no longer than the master's. */
  lemma CatchUpWhileGateHeld(run: seq<Step>, i: nat, j: nat)
    requires i < j < |run| && run[i].Recover? && run[j] == Join(run[i].node)
    requires run[i].logsize <= |After(run, i).accepted| && After(run, i).flush.Idle?
    requires forall t :: i < t <= j ==> Tid(run[i].node) in After(run, t).m.gate.ids
    ensures run[i].logsize <= |After(run, j).accepted|
    ensures Dispatched(run, i, j) == After(run, j).accepted[run[i].logsize..]
       <==> run[i].logsize <= |After(run, i).m.log|
  {
    CatchUpExactly(run, i, j);
    HeldGateKeepsLog(run, i, j);
    RunOk(run, j);
  }

  /** From a recovery on, a node's gate entry stays until a node of that gate name joins or a timer for it fires. */
  lemma {:induction false} EntryStays(run: seq<Step>, i: nat, j: nat)
    requires i < j <= |run| && run[i].Recover? && After(run, i).flush.Idle?
    requires forall k :: i < k < j ==> !Opens(run[k], run[i].node)
    ensures Tid(run[i].node) in After(run, j).m.gate.ids
  {
    hide Next, Ok;
    RunOk(run, j - 1);
    if i + 1 < j { EntryStays(run, i, j - 1); }
    GateEntries(After(run, j - 1), run[j - 1], Tid(run[i].node));
  }

  /** Exact catch-up, told by what happens: when between a recovery and the join no node of that gate name joins
      and no timer for it fires, whatever else does happen, the node is sent exactly what it lacks if and only
      if its log was no longer than the master's. */
  lemma CatchUpUndisturbed(run: seq<Step>, i: nat, j: nat)
    requires i < j < |run| && run[i].Recover? && run[j] == Join(run[i].node)
    requires run[i].logsize <= |After(run, i).accepted| && After(run, i).flush.Idle?
    requires forall k :: i < k < j ==> !(run[k].Join? && Tid(run[k].node) == Tid(run[i].node))
    requires forall k :: i < k < j ==> run[k] != Timeout(Tid(run[i].node))
    ensures run[i].logsize <= |After(run, j).accepted|
    ensures Dispatched(run, i, j) == After(run, j).accepted[run[i].logsize..]
       <==> run[i].logsize <= |After(run, i).m.log|
  {
    hide Next, After;
    forall t | i < t <= j
      ensures Tid(run[i].node) in After(run, t).m.gate.ids
    {
      EntryStays(run, i, t);
    }
    CatchUpWhileGateHeld(run, i, j);
  }

  lemma OneHolder(id: string)
    ensures Incremented(Gate(0, []), id) == Gate(1, [id])
    ensures Decremented(Gate(1, [id]), id) == Gate(0, [])
  {
    assert IndexOf([], id) == 0 && IndexOf([id], id) == 0;
    assert [] + [id] == [id] && RemoveAt([id], 0) == [];
  }

  lemma OneFlush(s: Run, c: Command)
    requires s.flush.Idle? && s.m.gate.locks <= 0 && s.m.queue == [c]
    ensures Next(Next(Next(Next(s, FlushBegin), FlushCopy), FlushPop), FlushEnd)
         == s.(m := s.m.(log := s.m.log + [c], queue := []))
  {
    var s1 := Next(s, FlushBegin);
    assert s1 == s.(flush := Busy(1, false));
    var s2 := Next(s1, FlushCopy);
    assert s2 == s.(m := s.m.(log := s.m.log + [c]), flush := Busy(1, true));
    var s3 := Next(s2, FlushPop);
    assert s3 == s.(m := s.m.(log := s.m.log + [c], queue := []), flush := Busy(0, false));
  }

  /** A timer that opens the gate early loses a command: it is flushed after the recovery has read the
      log and before the join reads the queue. */
  lemma EarlyTimeoutLosesCommand(c: Command, n: Addr)
    ensures var run := [Accept(c, {}), Recover(n, 0), Timeout(Tid(n)), FlushBegin, FlushCopy, FlushPop, FlushEnd,
         Join(n)];
            After(run, 7).accepted == [c] && Dispatched(run, 1, 7) == []
  {
    var run := [Accept(c, {}), Recover(n, 0), Timeout(Tid(n)), FlushBegin, FlushCopy, FlushPop, FlushEnd, Join(n)];
    var s1 := Next(INIT, run[0]);
    assert s1 == Run(MState([], [c], Gate(0, []), []), Idle, [c]);
    OneHolder(Tid(n));
    assert Next(Next(s1, run[1]), run[2]) == s1;
    OneFlush(s1, c);
    hide Next, After;
    AfterStep(run, 0);
    AfterStep(run, 1);
    AfterStep(run, 2);
    AfterStep(run, 3);
    AfterStep(run, 4);
    AfterStep(run, 5);
    AfterStep(run, 6);
    assert After(run, 7) == s1.(m := s1.m.(log := [c], queue := []));
  }

  lemma AfterStep(run: seq<Step>, n: nat)
    requires n < |run|
    ensures After(run, 0) == INIT && After(run, n + 1) == Next(After(run, n), run[n])
  {
  }
}
