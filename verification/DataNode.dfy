/** A data node (SQSDataNode/src/DataNode.cpp): its store, its log, and the
    handlers of client requests and of the master's messages. */
module DataNode {
  import opened Basics
  import D = Database
  import opened Commands

  const CREATE_QUEUE := "/createQueue"
  const DEL_QUEUE := "/deleteQueue"
  const PUT_MSG := "/putMessage"
  const GET_MSG := "/getMessage"
  const DELETE_MSG := "/deleteMessage"

  /** A request as the handlers see it: its path, and the parameters found in its query. */
  datatype Request = Request(path: string, queue: Option<string>, text: Option<string>, id: Option<int>)

  datatype Reply = Done | Failed | NewMessage(id: int) | Message(id: int, text: string) | Unrecognized

  /** The change a client request asks for, if it asks for one and names what it needs. */
  function ChangeOf(r: Request): Option<Change> {
    if r.queue.None? then None
    else if r.path == CREATE_QUEUE then Some(Create(r.queue.value))
    else if r.path == DEL_QUEUE then Some(Drop(r.queue.value))
    else if r.path == PUT_MSG then if r.text.Some? then Some(Post(r.queue.value, r.text.value)) else None
    else if r.path == DELETE_MSG then if r.id.Some? then Some(Erase(r.queue.value, r.id.value)) else None
    else None
  }

  /** The command a message from the master carries. */
  function CommandOf(r: Request): Option<Command> {
    if r.queue.None? then None
    else if r.path == CREATE_QUEUE then Some(CreateQueue(r.queue.value))
    else if r.path == DEL_QUEUE then Some(DeleteQueue(r.queue.value))
    else if r.path == PUT_MSG then
      if r.text.Some? && r.id.Some? then Some(PutMessage(r.queue.value, r.text.value, r.id.value)) else None
    else if r.path == DELETE_MSG then if r.id.Some? then Some(DeleteMessage(r.queue.value, r.id.value)) else None
    else None
  }

  class DataNode {
    const db: D.Database
    var log: seq<Command>
    /** The commands sent to the master, in order. */
    var toMaster: seq<Command>

    /** The store is the replay of the log. */
    ghost predicate Valid()
      reads this, db
    {
      D.TablesOk(db.tables) && db.tables == Replay(log)
    }

    constructor ()
      ensures Valid() && log == [] && toMaster == []
    {
      db := new D.Database();
      log, toMaster := [], [];
    }

    method AddLog(c: Command)
      modifies `log
      ensures log == old(log) + [c]
    {
      log := log + [c];
    }

    method Dispatch(c: Command)
      modifies `toMaster
      ensures toMaster == old(toMaster) + [c]
    {
      toMaster := toMaster + [c];
    }

    /** onClientRecv, for the requests that change the store: store first, log and send only what succeeded. */
    method OnClientChange(r: Request) returns (reply: Reply)
      requires Valid()
      modifies this, db
      ensures Valid()
      ensures var c := if ChangeOf(r).Some? then Accepted(old(db.tables), ChangeOf(r).value) else None;
              && log == old(log) + (if c.Some? then [c.value] else [])
              && toMaster == old(toMaster) + (if c.Some? then [c.value] else [])
              && db.tables == (if c.Some? then Apply(old(db.tables), c.value) else old(db.tables))
              && (reply.Unrecognized? <==> ChangeOf(r).None?)
              && (reply.Failed? <==> ChangeOf(r).Some? && c.None?)
              && (c.Some? ==> reply == if c.value.PutMessage? then NewMessage(c.value.id) else Done)
      ensures r.path == "/createQueue" && r.queue.Some? ==>
                var q, absent := r.queue.value, r.queue.value !in old(db.tables);
                && db.tables == (if absent then old(db.tables)[q := D.Table(0, [])] else old(db.tables))
                && log == old(log) + (if absent then [CreateQueue(q)] else [])
                && toMaster == old(toMaster) + (if absent then [CreateQueue(q)] else [])
                && reply == if absent then Done else Failed
      ensures r.path == "/deleteQueue" && r.queue.Some? ==>
                var q, present := r.queue.value, r.queue.value in old(db.tables);
                && db.tables == (map x | x in old(db.tables) && x != q :: old(db.tables)[x])
                && log == old(log) + (if present then [DeleteQueue(q)] else [])
                && toMaster == old(toMaster) + (if present then [DeleteQueue(q)] else [])
                && reply == if present then Done else Failed
      ensures r.path == "/putMessage" && r.queue.Some? && r.text.Some? ==>
                var q, text := r.queue.value, r.text.value;
                if q !in old(db.tables) then
                  db.tables == old(db.tables) && log == old(log) && toMaster == old(toMaster) && reply == Failed
                else
                  var t, id := old(db.tables)[q], old(db.tables)[q].last + 1;
                  && db.tables == old(db.tables)[q := D.Table(id, t.rows + [D.Row(id, text)])]
                  && log == old(log) + [PutMessage(q, text, id)]
                  && toMaster == old(toMaster) + [PutMessage(q, text, id)] && reply == NewMessage(id)
      ensures r.path == "/deleteMessage" && r.queue.Some? && r.id.Some? ==>
                var q, id := r.queue.value, r.id.value;
                var rows := if q in old(db.tables) then old(db.tables)[q].rows else [];
                && (forall i :: 0 <= i < |rows| && rows[i].id == id ==>
                      && db.tables == old(db.tables)[q := D.Table(old(db.tables)[q].last, rows[..i] + rows[i + 1..])]
                      && log == old(log) + [DeleteMessage(q, id)]
                      && toMaster == old(toMaster) + [DeleteMessage(q, id)]
                      && reply == Done)
                && ((forall i :: 0 <= i < |rows| ==> rows[i].id != id) ==>
                      db.tables == old(db.tables) && log == old(log) && toMaster == old(toMaster) && reply == Failed)
      ensures r.queue.None? || (r.path == "/putMessage" && r.text.None?) || (r.path == "/deleteMessage" && r.id.None?)
              || r.path !in {"/createQueue", "/deleteQueue", "/putMessage", "/deleteMessage"} ==>
                db.tables == old(db.tables) && log == old(log) && toMaster == old(toMaster) && reply == Unrecognized
    {
      if ChangeOf(r).Some? {
        StoredIsReplayed(db.tables, ChangeOf(r).value);
        if Accepted(db.tables, ChangeOf(r).value).Some? {
          ReplaySnoc(log, Accepted(db.tables, ChangeOf(r).value).value);
        }
      }
      if r.path == CREATE_QUEUE {
        if r.queue.None? { return Unrecognized; }
        var ok := db.CreateQueue(r.queue.value);
        if !ok { return Failed; }
        AddLog(CreateQueue(r.queue.value));
        Dispatch(CreateQueue(r.queue.value));
        return Done;
      } else if r.path == DEL_QUEUE {
        if r.queue.None? { return Unrecognized; }
        var ok := db.DeleteQueue(r.queue.value);
        if !ok { return Failed; }
        AddLog(DeleteQueue(r.queue.value));
        Dispatch(DeleteQueue(r.queue.value));
        return Done;
      } else if r.path == PUT_MSG {
        if r.queue.None? || r.text.None? { return Unrecognized; }
        if r.queue.value in db.tables { D.AutoIdIsFresh(db.tables, r.queue.value, r.text.value); }
        var msgId := db.PutMessage(r.queue.value, r.text.value, -1);
        if msgId == -1 { return Failed; }
        AddLog(PutMessage(r.queue.value, r.text.value, msgId));
        Dispatch(PutMessage(r.queue.value, r.text.value, msgId));
        return NewMessage(msgId);
      } else if r.path == DELETE_MSG {
        if r.queue.None? || r.id.None? { return Unrecognized; }
        var ok := db.DeleteMessage(r.queue.value, r.id.value);
        if !ok { return Failed; }
        AddLog(DeleteMessage(r.queue.value, r.id.value));
        Dispatch(DeleteMessage(r.queue.value, r.id.value));
        return Done;
      } else {
        return Unrecognized;
      }
    }

    /** onMasterRecv: log first, then store; a store that refuses changes the reply and nothing else. */
    method OnMasterRecv(r: Request) returns (reply: Reply)
      requires Valid()
      requires r.path == PUT_MSG && r.queue.Some? && r.text.Some? ==> r.id.Some?
      modifies this, db
      ensures Valid() && toMaster == old(toMaster)
      ensures var c := CommandOf(r);
              && log == old(log) + (if c.Some? then [c.value] else [])
              && db.tables == (if c.Some? then Apply(old(db.tables), c.value) else old(db.tables))
              && (reply.Unrecognized? <==> c.None?)
      ensures r.path == "/createQueue" && r.queue.Some? ==>
                var q, absent := r.queue.value, r.queue.value !in old(db.tables);
                && log == old(log) + [CreateQueue(q)]
                && db.tables == (if absent then old(db.tables)[q := D.Table(0, [])] else old(db.tables))
                && reply == if absent then Done else Failed
      ensures r.path == "/deleteQueue" && r.queue.Some? ==>
                var q := r.queue.value;
                && log == old(log) + [DeleteQueue(q)]
                && db.tables == (map x | x in old(db.tables) && x != q :: old(db.tables)[x])
                && reply == if q in old(db.tables) then Done else Failed
      ensures r.path == "/putMessage" && r.queue.Some? && r.text.Some? ==>
                var q, text, id := r.queue.value, r.text.value, r.id.value;
                && log == old(log) + [PutMessage(q, text, id)]
                && (q !in old(db.tables) ==>
                      db.tables == old(db.tables) && reply == if id == -1 then NewMessage(-1) else Failed)
                && (q in old(db.tables) && id == -1 ==>
                      var n := old(db.tables)[q].last + 1;
                      && db.tables == old(db.tables)[q := D.Table(n, old(db.tables)[q].rows + [D.Row(n, text)])]
                      && reply == Failed)
                && (q in old(db.tables) && id != -1 ==>
                      var t := old(db.tables)[q];
                      if exists i :: 0 <= i < |t.rows| && t.rows[i].id == id then
                        db.tables == old(db.tables) && reply == Failed
                      else
                        && reply == NewMessage(id)
                        && exists k ::
                             && 0 <= k <= |t.rows|
                             && (forall i :: 0 <= i < |t.rows| ==>
                                   if i < k then t.rows[i].id < id else id < t.rows[i].id)
                             && var rows := t.rows[..k] + [D.Row(id, text)] + t.rows[k..];
                                db.tables == old(db.tables)[q := D.Table(if t.last < id then id else t.last, rows)])
      ensures r.path == "/deleteMessage" && r.queue.Some? && r.id.Some? ==>
                var q, id := r.queue.value, r.id.value;
                var rows := if q in old(db.tables) then old(db.tables)[q].rows else [];
                && log == old(log) + [DeleteMessage(q, id)]
                && (forall i :: 0 <= i < |rows| && rows[i].id == id ==>
                      && db.tables == old(db.tables)[q := D.Table(old(db.tables)[q].last, rows[..i] + rows[i + 1..])]
                      && reply == Done)
                && ((forall i :: 0 <= i < |rows| ==> rows[i].id != id) ==>
                      db.tables == old(db.tables) && reply == Failed)
      ensures r.queue.None? || (r.path == "/putMessage" && r.text.None?) || (r.path == "/deleteMessage" && r.id.None?)
              || r.path !in {"/createQueue", "/deleteQueue", "/putMessage", "/deleteMessage"} ==>
                db.tables == old(db.tables) && log == old(log) && reply == Unrecognized
    {
      if CommandOf(r).Some? {
        ReplaySnoc(log, CommandOf(r).value);
        ApplyKeepsOk(db.tables, CommandOf(r).value);
      }
      hide Replay, D.TablesOk, D.Put, D.Created, D.Deleted, D.HasMessage;
      if r.path == CREATE_QUEUE {
        if r.queue.None? { return Unrecognized; }
        AddLog(CreateQueue(r.queue.value));
        var ok := db.CreateQueue(r.queue.value);
        return if ok then Done else Failed;
      } else if r.path == DEL_QUEUE {
        if r.queue.None? { return Unrecognized; }
        AddLog(DeleteQueue(r.queue.value));
        var ok := db.DeleteQueue(r.queue.value);
        return if ok then Done else Failed;
      } else if r.path == PUT_MSG {
        if r.queue.None? || r.text.None? { return Unrecognized; }
        AddLog(PutMessage(r.queue.value, r.text.value, r.id.value));
        var result := db.PutMessage(r.queue.value, r.text.value, r.id.value);
        return if result == r.id.value then NewMessage(result) else Failed;
      } else if r.path == DELETE_MSG {
        if r.queue.None? || r.id.None? { return Unrecognized; }
        AddLog(DeleteMessage(r.queue.value, r.id.value));
        var ok := db.DeleteMessage(r.queue.value, r.id.value);
        return if ok then Done else Failed;
      } else {
        return Unrecognized;
      }
    }

    /** onClientRecv, get message: ask the master to lock one row after the other, in id order, until a
        lock is granted. grant(i) is the master's answer for the i-th row, whatever it depends on. The message
        returned is stored, and every stored one with a smaller id was refused; after a failure every one was. */
    method OnClientGet(r: Request, grant: nat -> bool) returns (reply: Reply)
      requires Valid() && r.path == GET_MSG
      ensures r.queue.None? <==> reply.Unrecognized?
      ensures r.queue.Some? ==>
                var q := r.queue.value;
                var rows := if q in db.tables then db.tables[q].rows else [];
                match reply
                case Message(id, text) =>
                  && D.Row(id, text) in rows
                  && (exists i :: 0 <= i < |rows| && rows[i] == D.Row(id, text) && grant(i))
                  && forall j :: 0 <= j < |rows| && rows[j].id < id ==> !grant(j)
                case Failed => forall j :: 0 <= j < |rows| ==> !grant(j)
                case _ => false
      ensures r.queue.Some? ==>
              var rows := D.RowsOf(db.tables, r.queue.value);
              match reply
              case Message(id, text) =>
                exists i ::
                  0 <= i < |rows| && rows[i] == D.Row(id, text) && grant(i) && forall j :: 0 <= j < i ==> !grant(j)
              case Failed => forall i :: 0 <= i < |rows| ==> !grant(i)
              case _ => false
    {
      if r.queue.None? {
        return Unrecognized;
      }
      var i, unlock, queue := 0, false, r.queue.value;
      var ok, msgId, msg := false, -1, "";
      while !unlock
        invariant if unlock then 0 < i <= |D.RowsOf(db.tables, queue)| && grant(i - 1)
                                 && D.RowsOf(db.tables, queue)[i - 1] == D.Row(msgId, msg)
                  else i <= |D.RowsOf(db.tables, queue)|
        invariant forall j :: 0 <= j < i && !(unlock && j == i - 1) ==> !grant(j)
        decreases !unlock, |D.RowsOf(db.tables, queue)| - i
      {
        ok, msgId, msg := db.GetMessage(queue, i);
        if !ok {
          return Failed;
        }
        unlock := grant(i);
        i := i + 1;
      }
      return Message(msgId, msg);
    }
  }
}
