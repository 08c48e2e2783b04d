/** A data node's store (SQSDataNode/src/Database.cpp): one table a queue, its rows in
    id order, with SQLite's AUTOINCREMENT counter beside them. */
module Database {
  import opened Basics

  datatype Row = Row(id: int, text: string)

  /** last is the largest id the table has ever held; it survives deletes and starts again when the
      queue is dropped and created anew. */
  datatype Table = Table(last: int, rows: seq<Row>)

  type Tables = map<string, Table>

  /** Where the row of an id is, or would go. */
  function RowSlot(rows: seq<Row>, id: int): (k: nat)
    ensures k <= |rows|
    ensures forall i :: 0 <= i < k ==> rows[i].id < id
    ensures k < |rows| ==> id <= rows[k].id
  {
    if rows == [] || id <= rows[0].id then 0 else 1 + RowSlot(rows[1..], id)
  }

  predicate HasRow(rows: seq<Row>, id: int) {
    RowSlot(rows, id) < |rows| && rows[RowSlot(rows, id)].id == id
  }

  ghost predicate TableOk(t: Table) {
    && 0 <= t.last
    && (forall i, j :: 0 <= i < j < |t.rows| ==> t.rows[i].id < t.rows[j].id)
    && (forall i :: 0 <= i < |t.rows| ==> t.rows[i].id <= t.last)
  }

  ghost predicate TablesOk(db: Tables) {
    forall q :: q in db ==> TableOk(db[q])
  }

  function Created(db: Tables, q: string): Tables {
    if q in db then db else db[q := Table(0, [])]
  }

  function Dropped(db: Tables, q: string): Tables {
    db - {q}
  }

  /** The id an INSERT gets: the one asked for, or the next one when NULL is written for -1. */
  function NewId(t: Table, id: int): int {
    if id == -1 then t.last + 1 else id
  }

  predicate PutSucceeds(db: Tables, q: string, id: int) {
    q in db && !HasRow(db[q].rows, NewId(db[q], id))
  }

  function Put(db: Tables, q: string, text: string, id: int): Tables {
    if !PutSucceeds(db, q, id) then db
    else
      var t, n := db[q], NewId(db[q], id);
      db[q := Table(if t.last < n then n else t.last, InsertedAt(t.rows, RowSlot(t.rows, n), Row(n, text)))]
  }

  predicate HasMessage(db: Tables, q: string, id: int) {
    q in db && HasRow(db[q].rows, id)
  }

  function Deleted(db: Tables, q: string, id: int): Tables {
    if !HasMessage(db, q, id) then db
    else db[q := Table(db[q].last, RemoveAt(db[q].rows, RowSlot(db[q].rows, id)))]
  }

  function RowsOf(db: Tables, q: string): seq<Row> {
    if q in db then db[q].rows else []
  }

  lemma HasRowMeaning(t: Table, id: int)
    requires TableOk(t)
    ensures HasRow(t.rows, id) <==> exists i :: 0 <= i < |t.rows| && t.rows[i].id == id
  {
  }

  lemma PutKeepsOk(db: Tables, q: string, text: string, id: int)
    requires TablesOk(db)
    ensures TablesOk(Put(db, q, text, id))
  {
    if PutSucceeds(db, q, id) {
      var t, n := db[q], NewId(db[q], id);
      var k := RowSlot(t.rows, n);
      assert k < |t.rows| ==> n < t.rows[k].id;
      assert forall i :: k <= i < |t.rows| ==> n < t.rows[i].id;
      assert TableOk(Put(db, q, text, id)[q]);
    }
  }

  lemma DeleteKeepsOk(db: Tables, q: string, id: int)
    requires TablesOk(db)
    ensures TablesOk(Deleted(db, q, id))
  {
    if HasMessage(db, q, id) { assert TableOk(Deleted(db, q, id)[q]); }
  }

  /** AUTOINCREMENT never collides, and never hands out an id again while the queue lives: the id it
      picks is larger than every id the table has held. */
  lemma AutoIdIsFresh(db: Tables, q: string, text: string)
    requires TablesOk(db) && q in db
    ensures PutSucceeds(db, q, -1) && 1 <= NewId(db[q], -1)
    ensures PutSucceeds(db, q, NewId(db[q], -1))
    ensures Put(db, q, text, -1) == Put(db, q, text, NewId(db[q], -1))
    ensures Put(db, q, text, -1)[q] == Table(db[q].last + 1, db[q].rows + [Row(db[q].last + 1, text)])
  {
    var t := db[q];
    assert TableOk(t);
    assert RowSlot(t.rows, t.last + 1) == |t.rows|;
    assert InsertedAt(t.rows, |t.rows|, Row(t.last + 1, text)) == t.rows + [Row(t.last + 1, text)];
  }

  /** What a put and a delete do to the other rows: nothing. */
  lemma PutThenDelete(db: Tables, q: string, text: string, id: int)
    requires TablesOk(db) && PutSucceeds(db, q, id)
    ensures var n := NewId(db[q], id);
            && HasMessage(Put(db, q, text, id), q, n)
            && Deleted(Put(db, q, text, id), q, n)[q].rows == db[q].rows
  {
    var t, n := db[q], NewId(db[q], id);
    var k := RowSlot(t.rows, n);
    var r := InsertedAt(t.rows, k, Row(n, text));
    assert r[k].id == n && k < |t.rows| ==> n < t.rows[k].id;
    assert forall j :: 0 <= j < k ==> r[j].id < n;
    assert RemoveAt(r, k) == t.rows;
  }

  /** Where a message goes: behind those with smaller ids and before those with larger ones, unless its id is
      taken. */
  lemma PutPlace(db: Tables, q: string, text: string, id: int)
    requires TablesOk(db) && q in db
    ensures var t, n := db[q], if id == -1 then db[q].last + 1 else id;
            var rows, k := t.rows, RowSlot(t.rows, n);
            && NewId(t, id) == n
            && (PutSucceeds(db, q, id) <==> forall i :: 0 <= i < |rows| ==> rows[i].id != n)
            && (PutSucceeds(db, q, id) ==>
                  && Put(db, q, text, id)
                     == db[q := Table(if t.last < n then n else t.last, rows[..k] + [Row(n, text)] + rows[k..])]
                  && forall i :: 0 <= i < |rows| ==> if i < k then rows[i].id < n else n < rows[i].id)
  {
    var t, n := db[q], NewId(db[q], id);
    var k := RowSlot(t.rows, n);
    assert TableOk(t);
    HasRowMeaning(t, n);
    assert k < |t.rows| ==> forall i :: k < i < |t.rows| ==> t.rows[k].id < t.rows[i].id;
    assert InsertedAt(t.rows, k, Row(n, text)) == t.rows[..k] + [Row(n, text)] + t.rows[k..];
  }

  /** What a delete takes: the row of its id, and no other. */
  lemma DeletePlace(db: Tables, q: string, id: int, i: nat)
    requires TablesOk(db) && q in db && i < |db[q].rows| && db[q].rows[i].id == id
    ensures HasMessage(db, q, id)
    ensures Deleted(db, q, id) == db[q := Table(db[q].last, db[q].rows[..i] + db[q].rows[i + 1..])]
  {
    var rows := db[q].rows;
    assert TableOk(db[q]);
    assert RowSlot(rows, id) == i;
    assert RemoveAt(rows, i) == rows[..i] + rows[i + 1..];
  }

  /** Each stored message has one offset, and it is the number of stored messages with smaller ids. */
  lemma OneOffset(t: Table, row: Row)
    requires TableOk(t) && row in t.rows
    ensures exists i ::
              && 0 <= i < |t.rows| && t.rows[i] == row
              && forall j :: 0 <= j < |t.rows| ==> (t.rows[j].id < row.id <==> j < i) && (t.rows[j] == row <==> j == i)
  {
    var i :| 0 <= i < |t.rows| && t.rows[i] == row;
    assert forall j :: 0 <= j < |t.rows| ==> (t.rows[j].id < row.id <==> j < i);
  }

  class Database {
    var tables: Tables

    constructor ()
      ensures tables == map[]
    {
      tables := map[];
    }

    /** A new queue is empty, and its ids start from 1. */
    method CreateQueue(queueName: string) returns (ok: bool)
      modifies this
      ensures ok <==> queueName !in old(tables)
      ensures tables == Created(old(tables), queueName)
      ensures tables == if ok then old(tables)[queueName := Table(0, [])] else old(tables)
    {
      ok := queueName !in tables;
      if ok {
        tables := tables[queueName := Table(0, [])];
      }
    }

    method DeleteQueue(queueName: string) returns (ok: bool)
      modifies this
      ensures ok <==> queueName in old(tables)
      ensures tables == Dropped(old(tables), queueName)
      ensures tables == map q | q in old(tables) && q != queueName :: old(tables)[q]
    {
      ok := queueName in tables;
      tables := tables - {queueName};
    }

    /** putMessage: the id of the new row, or -1. */
    method PutMessage(queueName: string, message: string, messageId: int) returns (id: int)
      requires TablesOk(tables)
      modifies this
      ensures TablesOk(tables)
      ensures id == if PutSucceeds(old(tables), queueName, messageId)
           then NewId(old(tables)[queueName], messageId) else -1
      ensures tables == Put(old(tables), queueName, message, messageId)
      ensures queueName !in old(tables) ==> id == -1 && tables == old(tables)
      ensures queueName in old(tables) ==>
                var t := old(tables)[queueName];
                var n := if messageId == -1 then t.last + 1 else messageId;
                if exists i :: 0 <= i < |t.rows| && t.rows[i].id == n then id == -1 && tables == old(tables)
                else
                  && id == n
                  && exists k ::
                       && 0 <= k <= |t.rows|
                       && (forall i :: 0 <= i < |t.rows| ==> if i < k then t.rows[i].id < n else n < t.rows[i].id)
                       && tables == old(tables)[queueName := Table(if t.last < n then n else t.last,
                                                                   t.rows[..k] + [Row(n, message)] + t.rows[k..])]
      ensures queueName in old(tables) && messageId == -1 ==>
                var t, n := old(tables)[queueName], old(tables)[queueName].last + 1;
                id == n && 1 <= n && tables == old(tables)[queueName := Table(n, t.rows + [Row(n, message)])]
    {
      PutKeepsOk(tables, queueName, message, messageId);
      if queueName in tables {
        PutPlace(tables, queueName, message, messageId);
        AutoIdIsFresh(tables, queueName, message);
      }
      if queueName !in tables {
        return -1;
      }
      var t := tables[queueName];
      var n := NewId(t, messageId);
      if HasRow(t.rows, n) {
        return -1;
      }
      id := n;
      tables := tables[queueName := Table(if t.last < n then n else t.last,
                                          InsertedAt(t.rows, RowSlot(t.rows, n), Row(n, message)))];
    }

    /** getMessage: the stored message with just skip stored ones before it in id order, if there is one. */
    method GetMessage(queueName: string, skip: nat) returns (ok: bool, messageId: int, message: string)
      ensures ok <==> queueName in tables && skip < |tables[queueName].rows|
      ensures ok <==> skip < |RowsOf(tables, queueName)|
      ensures ok ==> Row(messageId, message) == tables[queueName].rows[skip] == RowsOf(tables, queueName)[skip]
      ensures ok && TablesOk(tables) ==>
                && HasMessage(tables, queueName, messageId)
                && forall i :: 0 <= i < |tables[queueName].rows| ==>
                     (tables[queueName].rows[i].id < messageId <==> i < skip)
    {
      if TablesOk(tables) && queueName in tables && skip < |tables[queueName].rows| {
        HasRowMeaning(tables[queueName], tables[queueName].rows[skip].id);
      }
      var count := if queueName in tables then |tables[queueName].rows| else 0;
      if count <= skip {
        return false, -1, "";
      }
      var row := tables[queueName].rows[skip];
      return true, row.id, row.text;
    }

    method DeleteMessage(queueName: string, messageId: int) returns (ok: bool)
      requires TablesOk(tables)
      modifies this
      ensures TablesOk(tables)
      ensures ok <==> HasMessage(old(tables), queueName, messageId)
      ensures tables == Deleted(old(tables), queueName, messageId)
      ensures ok <==>
              && queueName in old(tables)
              && exists i :: 0 <= i < |old(tables)[queueName].rows| && old(tables)[queueName].rows[i].id == messageId
      ensures !ok ==> tables == old(tables)
      ensures forall i ::
                queueName in old(tables) && 0 <= i < |old(tables)[queueName].rows|
                && old(tables)[queueName].rows[i].id == messageId ==>
                  var t := old(tables)[queueName];
                  tables == old(tables)[queueName := Table(t.last, t.rows[..i] + t.rows[i + 1..])]
    {
      DeleteKeepsOk(tables, queueName, messageId);
      if queueName in tables {
        HasRowMeaning(tables[queueName], messageId);
        forall i | 0 <= i < |tables[queueName].rows| && tables[queueName].rows[i].id == messageId
          ensures Deleted(tables, queueName, messageId)
               == tables[queueName := Table(tables[queueName].last,
                                            tables[queueName].rows[..i] + tables[queueName].rows[i + 1..])]
        {
          DeletePlace(tables, queueName, messageId, i);
        }
      }
      if queueName !in tables || !HasRow(tables[queueName].rows, messageId) {
        return false;
      }
      var t := tables[queueName];
      tables := tables[queueName := Table(t.last, RemoveAt(t.rows, RowSlot(t.rows, messageId)))];
      return true;
    }
  }
}
