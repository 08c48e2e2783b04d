/** Two changes made at once at two nodes: exactly which ones leave the two stores equal. */
module Overlap {
  import opened Basics
  import opened Database
  import opened Commands
  import opened FanOut
  import C = Cluster
  import opened InFlight

  function TableOf(db: Tables, q: string): Option<Table> {
    if q in db then Some(db[q]) else None
  }

  lemma SameTables(a: Tables, b: Tables)
    requires forall q :: TableOf(a, q) == TableOf(b, q)
    ensures a == b
  {
    assert forall q :: (q in a <==> TableOf(a, q).Some?) && (q in b <==> TableOf(b, q).Some?);
  }

  /** A command touches no table but its own queue's. */
  lemma TouchesOwn(db: Tables, c: Command, q: string)
    requires q != c.queue
    ensures TableOf(Apply(db, c), q) == TableOf(db, q)
  {
  }

  /** What a command does to its queue's table depends on that table alone. */
  lemma DependsOnOwn(a: Tables, b: Tables, c: Command)
    requires TableOf(a, c.queue) == TableOf(b, c.queue)
    ensures TableOf(Apply(a, c), c.queue) == TableOf(Apply(b, c), c.queue)
  {
    assert c.queue in a <==> c.queue in b;
  }

  lemma OtherQueuesCommute(db: Tables, c: Command, d: Command)
    requires c.queue != d.queue
    ensures Apply(Apply(db, c), d) == Apply(Apply(db, d), c)
  {
    hide Apply, TableOf;
    TouchesOwn(db, c, d.queue);
    TouchesOwn(db, d, c.queue);
    DependsOnOwn(Apply(db, c), db, d);
    DependsOnOwn(Apply(db, d), db, c);
    forall q
      ensures TableOf(Apply(Apply(db, c), d), q) == TableOf(Apply(Apply(db, d), c), q)
    {
      if q != c.queue { TouchesOwn(db, c, q); TouchesOwn(Apply(db, d), c, q); }
      if q != d.queue { TouchesOwn(db, d, q); TouchesOwn(Apply(db, c), d, q); }
    }
    SameTables(Apply(Apply(db, c), d), Apply(Apply(db, d), c));
  }

  lemma SlotOf(rows: seq<Row>, i: nat)
    requires i < |rows| && forall j, k :: 0 <= j < k < |rows| ==> rows[j].id < rows[k].id
    ensures RowSlot(rows, rows[i].id) == i
  {
  }

  lemma SlotsFollow(db: Tables, q: string, i: int, j: int)
    requires TablesOk(db) && HasMessage(db, q, i) && HasMessage(db, q, j) && i < j
    ensures RowSlot(db[q].rows, i) < RowSlot(db[q].rows, j)
  {
    assert TableOk(db[q]);
  }

  lemma RemoveTwice<T>(s: seq<T>, k: nat, l: nat)
    requires k < l < |s|
    ensures RemoveAt(RemoveAt(s, k), l - 1) == RemoveAt(RemoveAt(s, l), k)
  {
  }

  lemma DeletedRows(db: Tables, q: string, id: int, k: nat)
    requires TablesOk(db) && q in db && k < |db[q].rows| && db[q].rows[k].id == id
    ensures Deleted(db, q, id) == db[q := Table(db[q].last, RemoveAt(db[q].rows, k))]
    ensures TablesOk(Deleted(db, q, id))
  {
    assert TableOk(db[q]);
    SlotOf(db[q].rows, k);
    DeleteKeepsOk(db, q, id);
  }

  lemma DeletedTwice(db: Tables, q: string, i: int, j: int, k: nat, l: nat)
    requires TablesOk(db) && q in db && k < |db[q].rows| && l < |db[q].rows| && k != l
    requires db[q].rows[k].id == i && db[q].rows[l].id == j
    ensures Deleted(Deleted(db, q, i), q, j)
         == db[q := Table(db[q].last, RemoveAt(RemoveAt(db[q].rows, k), if k < l then l - 1 else l))]
  {
    hide TablesOk, Deleted;
    DeletedRows(db, q, i, k);
    DeletedRows(Deleted(db, q, i), q, j, if k < l then l - 1 else l);
  }

  /** Two rows go in either order. */
  lemma DeletesCommute(db: Tables, q: string, i: int, j: int)
    requires TablesOk(db) && HasMessage(db, q, i) && HasMessage(db, q, j) && i < j
    ensures Deleted(Deleted(db, q, i), q, j) == Deleted(Deleted(db, q, j), q, i)
  {
    var k, l := RowSlot(db[q].rows, i), RowSlot(db[q].rows, j);
    SlotsFollow(db, q, i, j);
    hide TablesOk, Deleted, HasMessage;
    DeletedTwice(db, q, i, j, k, l);
    DeletedTwice(db, q, j, i, l, k);
    RemoveTwice(db[q].rows, k, l);
  }

  lemma PostedRows(db: Tables, q: string, text: string)
    requires TablesOk(db) && q in db
    ensures var id := NewId(db[q], -1);
            && Put(db, q, text, id) == db[q := Table(id, db[q].rows + [Row(id, text)])]
            && TablesOk(Put(db, q, text, id))
  {
    AutoIdIsFresh(db, q, text);
    PutKeepsOk(db, q, text, NewId(db[q], -1));
  }

  lemma PostThenDelete(db: Tables, q: string, text: string, j: int, k: nat)
    requires TablesOk(db) && q in db && k < |db[q].rows| && db[q].rows[k].id == j
    ensures var id := NewId(db[q], -1);
            Deleted(Put(db, q, text, id), q, j) == db[q := Table(id, RemoveAt(db[q].rows, k) + [Row(id, text)])]
  {
    hide TablesOk, Deleted, Put;
    var rows, row := db[q].rows, Row(NewId(db[q], -1), text);
    PostedRows(db, q, text);
    DeletedRows(Put(db, q, text, NewId(db[q], -1)), q, j, k);
    assert RemoveAt(rows + [row], k) == RemoveAt(rows, k) + [row];
  }

  /** A post goes behind every row, so a delete on either side of it makes no difference. */
  lemma PostDeleteCommute(db: Tables, q: string, text: string, j: int)
    requires TablesOk(db) && HasMessage(db, q, j)
    ensures var id := NewId(db[q], -1);
            Deleted(Put(db, q, text, id), q, j) == Put(Deleted(db, q, j), q, text, id)
  {
    var k := RowSlot(db[q].rows, j);
    hide TablesOk, Deleted, Put, RemoveAt;
    DeletedRows(db, q, j, k);
    PostedRows(Deleted(db, q, j), q, text);
    PostThenDelete(db, q, text, j, k);
  }

  /** The clash: two posts to one queue with different texts. Both nodes choose the same id. */
  predicate Clash(r: Change, s: Change) {
    r.Post? && s.Post? && r.queue == s.queue && r.text != s.text
  }

  lemma PostsClash(db: Tables, q: string, x: string, y: string)
    requires TablesOk(db) && q in db && x != y
    ensures var id := NewId(db[q], -1);
            var c, d := PutMessage(q, x, id), PutMessage(q, y, id);
            Apply(Apply(db, c), d) != Apply(Apply(db, d), c)
  {
    var t, id := db[q], NewId(db[q], -1);
    AutoIdIsFresh(db, q, x);
    AutoIdIsFresh(db, q, y);
    var a, b := t.rows + [Row(id, x)], t.rows + [Row(id, y)];
    PutKeepsOk(db, q, x, id);
    PutKeepsOk(db, q, y, id);
    assert Put(db, q, x, id)[q] == Table(id, a) && Put(db, q, y, id)[q] == Table(id, b);
    assert TableOk(Put(db, q, x, id)[q]) && TableOk(Put(db, q, y, id)[q]);
    SlotOf(a, |t.rows|);
    SlotOf(b, |t.rows|);
    assert a[|t.rows|] != b[|t.rows|];
  }

  /** Exactly which changes, both accepted by one store, commute: all but two posts to one queue with
      different texts. */
  lemma {:induction false} CommuteExactly(db: Tables, r: Change, s: Change)
    requires TablesOk(db) && Accepted(db, r).Some? && Accepted(db, s).Some?
    ensures var c, d := Accepted(db, r).value, Accepted(db, s).value;
            Apply(Apply(db, c), d) == Apply(Apply(db, d), c) <==> !Clash(r, s)
  {
    var c, d := Accepted(db, r).value, Accepted(db, s).value;
    if c.queue != d.queue {
      OtherQueuesCommute(db, c, d);
    } else if c != d {
      SameQueueCommute(db, r, s);
    }
  }

  lemma SameQueueCommute(db: Tables, r: Change, s: Change)
    requires TablesOk(db) && Accepted(db, r).Some? && Accepted(db, s).Some?
    requires r.queue == s.queue && Accepted(db, r) != Accepted(db, s)
    ensures var c, d := Accepted(db, r).value, Accepted(db, s).value;
            Apply(Apply(db, c), d) == Apply(Apply(db, d), c) <==> !Clash(r, s)
  {
    var q, c, d := r.queue, Accepted(db, r).value, Accepted(db, s).value;
    assert q in db;
    if r.Drop? {
      DropAbsorbs(db, d);
    } else if s.Drop? {
      DropAbsorbs(db, c);
    } else if r.Post? && s.Post? {
      PostsClash(db, q, r.text, s.text);
    } else if r.Post? {
      PostDeleteCommute(db, q, r.text, s.id);
    } else if s.Post? {
      PostDeleteCommute(db, q, s.text, r.id);
    } else if r.id < s.id {
      DeletesCommute(db, q, r.id, s.id);
    } else {
      DeletesCommute(db, q, s.id, r.id);
    }
  }

  lemma DropAbsorbs(db: Tables, c: Command)
    requires c.queue in db && !c.CreateQueue?
    ensures Apply(Apply(db, c), DeleteQueue(c.queue)) == Apply(Apply(db, DeleteQueue(c.queue)), c)
  {
    var q := c.queue;
    assert Apply(db, c) - {q} == db - {q};
  }

  /** Node n is up and joined, once; it holds own, and has cs in flight. */
  ghost predicate Sees(s: State, n: Addr, own: C.Replica, cs: seq<Command>) {
    && Sound(s) && C.Up(s.all, n) && multiset(Joined(s))[n] == 1
    && s.all.nodes[n] == own && FlyingAt(s, n) == cs
  }

  lemma AppendSees(s: State, n: Addr, own: C.Replica, cs: seq<Command>, r: Change, c: Command, x: Addr,
           other: C.Replica, ds: seq<Command>)
    requires Sees(s, n, own, cs) && Sees(s, x, other, ds) && x != n && Accepted(own.db, r) == Some(c)
    ensures Sees(Next(s, Append(n, r)), n, Logged(own, c), cs + [c]) && Sees(Next(s, Append(n, r)), x, other, ds)
  {
    hide Next, Accepted, Logged, FlyingAt, Sound;
    AppendSound(s, n, r);
    AppendOne(s, n, r, c, n);
    AppendOne(s, n, r, c, x);
  }

  lemma ArriveSees(s: State, n: Addr, own: C.Replica, cs: seq<Command>, x: Addr, other: C.Replica, ds: seq<Command>)
    requires Sees(s, n, own, cs) && Sees(s, x, other, ds) && cs != [] && Passes(n, x)
    ensures Sees(Next(s, Arrive(n)), n, own, cs[1..]) && Sees(Next(s, Arrive(n)), x, Logged(other, cs[0]), ds)
  {
    hide Next, Sound, Replay, TablesOk, Logged, FlyingAt, Sees;
    SeesMeans(s, n, own, cs);
    SeesMeans(s, x, other, ds);
    StoreReplays(s, n);
    StoreReplays(s, x);
    ArriveSound(s, n);
    ArriveOnce(s, n, n);
    ArriveOnce(s, n, x);
    SeesMeans(Next(s, Arrive(n)), n, own, cs[1..]);
    SeesMeans(Next(s, Arrive(n)), x, Logged(other, cs[0]), ds);
  }

  lemma SeesMeans(s: State, n: Addr, own: C.Replica, cs: seq<Command>)
    ensures Sees(s, n, own, cs)
       <==> (Sound(s) && C.Up(s.all, n) && multiset(Joined(s))[n] == 1 && s.all.nodes[n] == own && FlyingAt(s, n) == cs)
  {
  }

  /** An arrival at a node that is joined once. */
  lemma ArriveOnce(s: State, n: Addr, x: Addr)
    requires Sound(s) && FlyingAt(s, n) != [] && C.Up(s.all, x) && multiset(Joined(s))[x] == 1
    requires s.all.nodes[x].db == Replay(s.all.nodes[x].log)
    ensures var t, c := Next(s, Arrive(n)), FlyingAt(s, n)[0];
            && C.Up(t.all, x) && multiset(Joined(t))[x] == 1
            && FlyingAt(t, x) == (if x == n then FlyingAt(s, x)[1..] else FlyingAt(s, x))
            && t.all.nodes[x] == if Passes(n, x) then Logged(s.all.nodes[x], c) else s.all.nodes[x]
  {
    hide Next, Sound, Replay;
    var c := FlyingAt(s, n)[0];
    ArriveChanges(s, n);
    ArriveOne(s, n, x);
    assert C.Times(c, 0) == [] && C.Times(c, 1) == [c] && s.all.nodes[x].log + [] == s.all.nodes[x].log;
  }

  lemma StoreReplays(s: State, n: Addr)
    requires Sound(s) && n in s.all.nodes
    ensures s.all.nodes[n].db == Replay(s.all.nodes[n].log) && TablesOk(s.all.nodes[n].db)
  {
    ReplayOk(s.all.nodes[n].log);
  }

  /** Two changes overlap: a and b append before either is accepted, then both are. */
  function Overlapping(a: Addr, r: Change, b: Addr, t: Change): seq<Step> {
    [Append(a, r), Append(b, t), Arrive(a), Arrive(b)]
  }

  lemma AfterOverlap(s: State, a: Addr, r: Change, b: Addr, t: Change)
    ensures After(s, Overlapping(a, r, b, t), 4)
         == Next(Next(Next(Next(s, Append(a, r)), Append(b, t)), Arrive(a)), Arrive(b))
  {
    hide Next;
    var run := Overlapping(a, r, b, t);
    assert After(s, run, 1) == Next(s, run[0]) && After(s, run, 2) == Next(After(s, run, 1), run[1]);
    assert After(s, run, 3) == Next(After(s, run, 2), run[2]);
  }

  /** After the overlap, each of the two nodes has logged its own command first and the other's second. */
  lemma {:induction false} OverlapLogs(s: State, a: Addr, r: Change, c: Command, b: Addr, t: Change, d: Command,
           own: C.Replica, other: C.Replica)
    requires Sees(s, a, own, []) && Sees(s, b, other, []) && Passes(a, b)
    requires Accepted(own.db, r) == Some(c) && Accepted(other.db, t) == Some(d)
    ensures var u := After(s, Overlapping(a, r, b, t), 4);
            Sees(u, a, Logged(Logged(own, c), d), []) && Sees(u, b, Logged(Logged(other, d), c), [])
  {
    AfterOverlap(s, a, r, b, t);
    hide Next, Sees, Accepted, Logged, After, Overlapping;
    assert [] + [c] == [c] && [] + [d] == [d] && [c][1..] == [] && [d][1..] == [];
    AppendSees(s, a, own, [], r, c, b, other, []);
    var s1 := Next(s, Append(a, r));
    AppendSees(s1, b, other, [], t, d, a, Logged(own, c), [c]);
    var s2 := Next(s1, Append(b, t));
    ArriveSees(s2, a, Logged(own, c), [c], b, Logged(other, d), [d]);
    ArriveSees(Next(s2, Arrive(a)), b, Logged(Logged(other, d), c), [d], a, Logged(own, c), []);
  }

  lemma LoggedTwice(own: C.Replica, c: Command, d: Command)
    requires own.db == Replay(own.log)
    ensures Logged(Logged(own, c), d).db == Apply(Apply(own.db, c), d)
    ensures multiset(Logged(Logged(own, c), d).log) == multiset(own.log) + multiset{c} + multiset{d}
  {
    ReplaySnoc(own.log, c);
    ReplaySnoc(own.log + [c], d);
  }

  /** Exactly when two changes that overlap at two nodes with equal stores leave them equal: unless both
      are posts to one queue with different texts. Those get one id at both nodes, each node keeps its own
      text under it and refuses the other's, although the two logs have gained the same commands. */
  lemma {:induction false} OverlapAgreesExactly(s: State, a: Addr, r: Change, b: Addr, t: Change)
    requires Sound(s) && Member(s, a) && Member(s, b) && Passes(a, b)
    requires multiset(Joined(s))[a] == multiset(Joined(s))[b] == 1 && FlyingAt(s, a) == FlyingAt(s, b) == []
    requires s.all.nodes[a].db == s.all.nodes[b].db
    requires Accepted(s.all.nodes[a].db, r).Some? && Accepted(s.all.nodes[a].db, t).Some?
    ensures var u := After(s, Overlapping(a, r, b, t), 4);
            && Member(u, a) && Member(u, b) && (u.all.nodes[a].db == u.all.nodes[b].db <==> !Clash(r, t))
            && (multiset(s.all.nodes[a].log) == multiset(s.all.nodes[b].log)
                ==> multiset(u.all.nodes[a].log) == multiset(u.all.nodes[b].log))
  {
    hide Next, Sound, Accepted, Logged, After, Replay, TablesOk, Sees, FlyingAt, Clash;
    var own, other, db := s.all.nodes[a], s.all.nodes[b], s.all.nodes[a].db;
    var c, d, u := Accepted(db, r).value, Accepted(db, t).value, After(s, Overlapping(a, r, b, t), 4);
    StoreReplays(s, a);
    StoreReplays(s, b);
    SeesMeans(s, a, own, []);
    SeesMeans(s, b, other, []);
    OverlapLogs(s, a, r, c, b, t, d, own, other);
    SeesMeans(u, a, Logged(Logged(own, c), d), []);
    SeesMeans(u, b, Logged(Logged(other, d), c), []);
    LoggedTwice(own, c, d);
    LoggedTwice(other, d, c);
    CommuteExactly(db, r, t);
  }
}
