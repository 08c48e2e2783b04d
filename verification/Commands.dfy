/** The commands that change a store. They are what the nodes log, what the
    master queues and fans out, and what a recovering node replays. */
module Commands {
  import opened Basics
  import opened Database

  datatype Command =
    | CreateQueue(queue: string)
    | DeleteQueue(queue: string)
    | PutMessage(queue: string, text: string, id: int)
    | DeleteMessage(queue: string, id: int)

  /** What a node does to its store for a command from the master, whether or not the store accepts it. */
  function Apply(db: Tables, c: Command): Tables {
    match c
    case CreateQueue(q) => Created(db, q)
    case DeleteQueue(q) => Dropped(db, q)
    case PutMessage(q, text, id) => Put(db, q, text, id)
    case DeleteMessage(q, id) => Deleted(db, q, id)
  }

  /** The store a log stands for. */
  function Replay(log: seq<Command>): Tables {
    if log == [] then map[] else Apply(Replay(log[..|log| - 1]), log[|log| - 1])
  }

  lemma ReplaySnoc(log: seq<Command>, c: Command)
    ensures Replay(log + [c]) == Apply(Replay(log), c)
  {
    assert (log + [c])[..|log|] == log;
  }

  lemma ApplyKeepsOk(db: Tables, c: Command)
    requires TablesOk(db)
    ensures TablesOk(Apply(db, c))
  {
    match c
    case CreateQueue(q) =>
    case DeleteQueue(q) =>
    case PutMessage(q, text, id) => PutKeepsOk(db, q, text, id);
    case DeleteMessage(q, id) => DeleteKeepsOk(db, q, id);
  }

  lemma {:induction false} ReplayOk(log: seq<Command>)
    ensures TablesOk(Replay(log))
  {
    if log != [] {
      ReplayOk(log[..|log| - 1]);
      ApplyKeepsOk(Replay(log[..|log| - 1]), log[|log| - 1]);
    }
  }

  /** A change asked for by a client. A put does not choose its id. */
  datatype Change =
    | Create(queue: string)
    | Drop(queue: string)
    | Post(queue: string, text: string)
    | Erase(queue: string, id: int)

  /** The command the origin logs and sends to the master, if its store accepts the change. */
  function Accepted(db: Tables, r: Change): Option<Command> {
    match r
    case Create(q) => if q in db then None else Some(CreateQueue(q))
    case Drop(q) => if q in db then Some(DeleteQueue(q)) else None
    case Post(q, text) => if PutSucceeds(db, q, -1) then Some(PutMessage(q, text, NewId(db[q], -1))) else None
    case Erase(q, id) => if HasMessage(db, q, id) then Some(DeleteMessage(q, id)) else None
  }

  /** The origin's own store after the change. A post stores with an automatic id. */
  function Stored(db: Tables, r: Change): Tables {
    match r
    case Create(q) => Created(db, q)
    case Drop(q) => Dropped(db, q)
    case Post(q, text) => Put(db, q, text, -1)
    case Erase(q, id) => Deleted(db, q, id)
  }

  /** The origin's store changes exactly as a replica's does when it replays the logged command, though
      the origin's post chose its id; a refused change leaves the store alone. */
  lemma StoredIsReplayed(db: Tables, r: Change)
    requires TablesOk(db)
    ensures match Accepted(db, r)
            case Some(c) => Stored(db, r) == Apply(db, c)
            case None => Stored(db, r) == db
  {
    if r.Post? && r.queue in db {
      AutoIdIsFresh(db, r.queue, r.text);
    }
  }
}
