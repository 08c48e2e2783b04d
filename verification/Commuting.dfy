/** Which commands can change places on every store. */
module Commuting {
  import opened Basics
  import opened Database
  import opened Commands
  import opened Overlap

  lemma OrderedHead(rows: seq<Row>, r: Row)
    requires forall i, j :: 0 <= i < j < |rows| ==> rows[i].id < rows[j].id
    requires r in rows
    ensures rows[0].id <= r.id && (rows[0].id == r.id ==> r == rows[0])
  {
  }

  /** Ordered rows are determined by their set. */
  lemma {:induction false} SameRows(a: seq<Row>, b: seq<Row>)
    requires forall i, j :: 0 <= i < j < |a| ==> a[i].id < a[j].id
    requires forall i, j :: 0 <= i < j < |b| ==> b[i].id < b[j].id
    requires forall r :: r in a <==> r in b
    ensures a == b
  {
    assert (a != [] ==> a[0] in a) && (b != [] ==> b[0] in b);
    if a != [] && b != [] {
      assert a[0] in b && b[0] in a;
      OrderedHead(b, a[0]);
      OrderedHead(a, b[0]);
      assert a == [a[0]] + a[1..] && b == [b[0]] + b[1..];
      forall r
        ensures r in a[1..] <==> r in b[1..]
      {
        assert r in a <==> r == a[0] || r in a[1..];
        assert r in b <==> r == b[0] || r in b[1..];
        assert r in a[1..] || r in b[1..] ==> r != a[0];
      }
      SameRows(a[1..], b[1..]);
    }
  }

  /** x is db but for its table of q, which has this counter and these rows. */
  ghost predicate Differs(x: Tables, db: Tables, q: string, last: int, rows: set<Row>) {
    TablesOk(x) && q in x && x == db[q := x[q]] && x[q].last == last && forall r :: r in x[q].rows <==> r in rows
  }

  ghost function Without(rows: set<Row>, id: int): set<Row> {
    set r | r in rows && r.id != id
  }

  ghost function With(rows: set<Row>, row: Row): set<Row> {
    if exists r :: r in rows && r.id == row.id then rows else rows + {row}
  }

  lemma Itself(db: Tables, q: string)
    requires TablesOk(db) && q in db
    ensures Differs(db, db, q, db[q].last, set r | r in db[q].rows)
  {
  }

  /** What a delete leaves of a table. */
  lemma DeletedMembers(db: Tables, q: string, id: int)
    requires TablesOk(db) && q in db
    ensures var t := Deleted(db, q, id);
            && TablesOk(t) && q in t && t == db[q := t[q]] && t[q].last == db[q].last
            && forall r :: r in t[q].rows <==> r in db[q].rows && r.id != id
  {
    var rows, k := db[q].rows, RowSlot(db[q].rows, id);
    assert TableOk(db[q]);
    DeleteKeepsOk(db, q, id);
    if HasMessage(db, q, id) {
      assert NoDup(rows);
      RemoveAtMembers(rows, k);
      assert forall r :: r in rows && r.id == id ==> r == rows[k];
    } else {
      HasRowMeaning(db[q], id);
      assert Deleted(db, q, id) == db[q := db[q]];
    }
  }

  /** What a put with an id of its own leaves of a table. */
  lemma PutMembers(db: Tables, q: string, text: string, id: int)
    requires TablesOk(db) && q in db && id != -1
    ensures var t, free := Put(db, q, text, id), forall r :: r in db[q].rows ==> r.id != id;
            && TablesOk(t) && q in t && t == db[q := t[q]]
            && t[q].last == (if db[q].last < id then id else db[q].last)
            && forall r :: r in t[q].rows <==> r in db[q].rows || (free && r == Row(id, text))
  {
    var rows := db[q].rows;
    assert TableOk(db[q]);
    PutKeepsOk(db, q, text, id);
    HasRowMeaning(db[q], id);
    if PutSucceeds(db, q, id) {
      InsertedAtMembers(rows, RowSlot(rows, id), Row(id, text));
      assert forall r :: r in rows ==> r.id != id;
    } else {
      assert Put(db, q, text, id) == db[q := db[q]];
      var i :| 0 <= i < |rows| && rows[i].id == id;
      assert rows[i] in rows;
    }
  }

  lemma DeletedDiffers(x: Tables, db: Tables, q: string, last: int, rows: set<Row>, id: int)
    requires Differs(x, db, q, last, rows)
    ensures Differs(Deleted(x, q, id), db, q, last, Without(rows, id))
  {
    hide Deleted, TablesOk;
    DeletedMembers(x, q, id);
  }

  lemma PutDiffers(x: Tables, db: Tables, q: string, last: int, rows: set<Row>, text: string, id: int)
    requires Differs(x, db, q, last, rows) && id != -1
    ensures Differs(Put(x, q, text, id), db, q, if last < id then id else last, With(rows, Row(id, text)))
  {
    hide Put, TablesOk;
    PutMembers(x, q, text, id);
    assert (exists r :: r in rows && r.id == id) <==> exists r :: r in x[q].rows && r.id == id;
  }

  lemma SameDifference(x: Tables, y: Tables, db: Tables, q: string, last: int, rows: set<Row>)
    requires Differs(x, db, q, last, rows) && Differs(y, db, q, last, rows)
    ensures x == y
  {
    assert TableOk(x[q]) && TableOk(y[q]);
    SameRows(x[q].rows, y[q].rows);
  }

  /** Two commands that make no queue come or go, and do not put or delete one message between them. */
  predicate Independent(c: Command, d: Command) {
    c.queue != d.queue
    || (c.DeleteMessage? && d.DeleteMessage?)
    || (c.PutMessage? && d.DeleteMessage? && c.id != d.id && c.id != -1)
    || (c.DeleteMessage? && d.PutMessage? && c.id != d.id && d.id != -1)
  }

  lemma WithoutTwice(rows: set<Row>, i: int, j: int)
    ensures Without(Without(rows, i), j) == Without(Without(rows, j), i)
  {
  }

  lemma AnyDeletesCommute(db: Tables, q: string, i: int, j: int)
    requires TablesOk(db)
    ensures Deleted(Deleted(db, q, i), q, j) == Deleted(Deleted(db, q, j), q, i)
  {
    if q in db {
      var last, rows := db[q].last, set r | r in db[q].rows;
      Itself(db, q);
      hide Differs, Deleted, TablesOk, Without;
      WithoutTwice(rows, i, j);
      DeletedDiffers(db, db, q, last, rows, i);
      DeletedDiffers(Deleted(db, q, i), db, q, last, Without(rows, i), j);
      DeletedDiffers(db, db, q, last, rows, j);
      DeletedDiffers(Deleted(db, q, j), db, q, last, Without(rows, j), i);
      SameDifference(Deleted(Deleted(db, q, i), q, j), Deleted(Deleted(db, q, j), q, i), db, q, last,
                     Without(Without(rows, i), j));
    }
  }

  lemma WithWithout(rows: set<Row>, row: Row, id: int)
    requires row.id != id
    ensures Without(With(rows, row), id) == With(Without(rows, id), row)
  {
    if r :| r in rows && r.id == row.id { assert r in Without(rows, id); }
  }

  lemma PutDeleteCommute(db: Tables, q: string, text: string, i: int, j: int)
    requires TablesOk(db) && i != j && i != -1
    ensures Deleted(Put(db, q, text, i), q, j) == Put(Deleted(db, q, j), q, text, i)
  {
    if q in db {
      var last, rows := db[q].last, set r | r in db[q].rows;
      var now := if last < i then i else last;
      Itself(db, q);
      hide Differs, Deleted, Put, TablesOk, With, Without;
      PutDiffers(db, db, q, last, rows, text, i);
      DeletedDiffers(Put(db, q, text, i), db, q, now, With(rows, Row(i, text)), j);
      DeletedDiffers(db, db, q, last, rows, j);
      PutDiffers(Deleted(db, q, j), db, q, last, Without(rows, j), text, i);
      WithWithout(rows, Row(i, text), j);
      SameDifference(Deleted(Put(db, q, text, i), q, j), Put(Deleted(db, q, j), q, text, i), db, q, now,
                     Without(With(rows, Row(i, text)), j));
    }
  }

  /** Independent commands commute on every store. */
  lemma IndependentCommute(db: Tables, c: Command, d: Command)
    requires TablesOk(db) && Independent(c, d)
    ensures Apply(Apply(db, c), d) == Apply(Apply(db, d), c)
  {
    hide TablesOk, Deleted, Put;
    if c.queue != d.queue {
      OtherQueuesCommute(db, c, d);
    } else if c.DeleteMessage? && d.DeleteMessage? {
      AnyDeletesCommute(db, c.queue, c.id, d.id);
    } else if c.PutMessage? {
      PutDeleteCommute(db, c.queue, c.text, c.id, d.id);
    } else {
      PutDeleteCommute(db, d.queue, d.text, d.id, c.id);
    }
  }

  /** A command that is independent of each of a sequence of commands can be applied before or after them. */
  lemma {:induction false} CommutePast(log: seq<Command>, cs: seq<Command>, c: Command)
    requires forall d :: d in cs ==> Independent(c, d)
    ensures Apply(Replay(log + cs), c) == Replay(log + [c] + cs)
    decreases |cs|
  {
    if cs == [] {
      assert log + cs == log && log + [c] + cs == log + [c];
      ReplaySnoc(log, c);
    } else {
      hide Apply, Replay, TablesOk;
      var init, d := cs[..|cs| - 1], cs[|cs| - 1];
      assert cs == init + [d] && log + cs == log + init + [d] && log + [c] + cs == log + [c] + init + [d];
      CommutePast(log, init, c);
      ReplaySnoc(log + init, d);
      ReplaySnoc(log + [c] + init, d);
      ReplayOk(log + init);
      IndependentCommute(Replay(log + init), c, d);
    }
  }
}
