/** The master's list of nodes it hears from (HeartBeat in SQSMaster/src/SQSMaster.cpp). */
module HeartBeat {
  import opened Basics
  import opened FanOut

  /** started is when the node was last heard from, in milliseconds. */
  datatype Client = Client(node: Addr, started: int, timeout: int) {
    predicate IsAlive(cur: int) { 1000 * cur < started + timeout }
  }

  /** The first client for the node, or the number of clients. */
  function Place(clients: seq<Client>, node: Addr): (k: nat)
    ensures k <= |clients|
    ensures forall i :: 0 <= i < k ==> clients[i].node != node
    ensures k < |clients| ==> clients[k].node == node
  {
    if clients == [] || clients[0].node == node then 0 else 1 + Place(clients[1..], node)
  }

  function Without(clients: seq<Client>, node: Addr): seq<Client> {
    var k := Place(clients, node);
    if k < |clients| then RemoveAt(clients, k) else clients
  }

  /** The node is registered, and has been heard from in time. */
  predicate Live(clients: seq<Client>, node: Addr, cur: int) {
    var k := Place(clients, node);
    k < |clients| && clients[k].IsAlive(cur)
  }

  ghost predicate OneEach(clients: seq<Client>) {
    forall i, j :: 0 <= i < j < |clients| ==> clients[i].node != clients[j].node
  }

  /** What it is to be alive: to be registered, and not to have been silent for the whole timeout. */
  lemma LiveExactly(clients: seq<Client>, node: Addr, cur: int)
    requires OneEach(clients)
    ensures Live(clients, node, cur)
       <==> exists i ::
              0 <= i < |clients| && clients[i].node == node && 1000 * cur < clients[i].started + clients[i].timeout
  {
  }

  /** Cancelling a node takes its entry off the list, and no other. */
  lemma WithoutExactly(clients: seq<Client>, node: Addr)
    requires OneEach(clients)
    ensures forall x :: x in Without(clients, node) <==> x in clients && x.node != node
  {
    var k := Place(clients, node);
    if k < |clients| { RemoveAtMembers(clients, k); }
  }

  /** RegularCheck: a node that answers a probe is heard from now. */
  function Answered(clients: seq<Client>, node: Addr, cur: int): seq<Client> {
    var k := Place(clients, node);
    if k < |clients| then clients[k := clients[k].(started := 1000 * cur)] else clients
  }

  /** HeartBeat::IsNodeAlive : a registered node that is not alive is taken off the list. */
  function Asked(clients: seq<Client>, node: Addr, cur: int): seq<Client> {
    if Live(clients, node, cur) then clients else Without(clients, node)
  }

  lemma WithoutKeeps(clients: seq<Client>, node: Addr, other: Addr, cur: int)
    requires OneEach(clients)
    ensures OneEach(Without(clients, node))
    ensures Live(Without(clients, node), other, cur) <==> other != node && Live(clients, other, cur)
  {
    var k, l, rest := Place(clients, node), Place(clients, other), Without(clients, node);
    if k < |clients| && other != node {
      if l < |clients| {
        var i := if l < k then l else l - 1;
        assert rest[i] == clients[l];
      }
      var m := Place(rest, other);
      assert m < |rest| ==> rest[m] == clients[if m < k then m else m + 1];
    } else if k < |clients| {
      assert forall i :: 0 <= i < |rest| ==> rest[i].node != node;
    }
  }

  /** The list after it has been asked about some nodes, one after the other. */
  function AskedAll(clients: seq<Client>, nodes: seq<Addr>, cur: int): seq<Client> {
    if nodes == [] then clients
    else Asked(AskedAll(clients, nodes[..|nodes| - 1], cur), nodes[|nodes| - 1], cur)
  }

  lemma AskedSnoc(clients: seq<Client>, nodes: seq<Addr>, node: Addr, cur: int)
    ensures AskedAll(clients, nodes + [node], cur) == Asked(AskedAll(clients, nodes, cur), node, cur)
  {
    assert (nodes + [node])[..|nodes|] == nodes;
  }

  /** Asking is stable: although every negative answer changes the list, all the answers at one reading of
      the clock are those of one fixed predicate. */
  lemma {:induction false} AskingIsStable(clients: seq<Client>, nodes: seq<Addr>, cur: int, node: Addr)
    requires OneEach(clients)
    ensures OneEach(AskedAll(clients, nodes, cur))
    ensures Live(AskedAll(clients, nodes, cur), node, cur) <==> Live(clients, node, cur)
    decreases |nodes|
  {
    hide Live, Without, OneEach;
    if nodes != [] {
      var init, last := nodes[..|nodes| - 1], nodes[|nodes| - 1];
      AskingIsStable(clients, init, cur, node);
      AskingIsStable(clients, init, cur, last);
      WithoutKeeps(AskedAll(clients, init, cur), last, node, cur);
    }
  }

  /** What the questions leave: the entries of live nodes, and of those that were not asked about. */
  lemma {:induction false} AskedExactly(clients: seq<Client>, nodes: seq<Addr>, cur: int, x: Client)
    requires OneEach(clients)
    ensures OneEach(AskedAll(clients, nodes, cur))
    ensures x in AskedAll(clients, nodes, cur) <==> x in clients && (Live(clients, x.node, cur) || x.node !in nodes)
    decreases |nodes|
  {
    hide Live, OneEach;
    AskingIsStable(clients, nodes, cur, x.node);
    if nodes != [] {
      var init, last := nodes[..|nodes| - 1], nodes[|nodes| - 1];
      AskedExactly(clients, init, cur, x);
      AskingIsStable(clients, init, cur, last);
      WithoutExactly(AskedAll(clients, init, cur), last);
      assert x.node in nodes <==> x.node in init || x.node == last;
    }
  }

  /** That predicate. */
  function LiveIn(clients: seq<Client>, cur: int): Addr -> bool {
    n => Live(clients, n, cur)
  }

  class HeartBeat {
    var clients: seq<Client>

    ghost predicate Valid()
      reads this
    {
      OneEach(clients)
    }

    constructor ()
      ensures Valid() && clients == []
    {
      clients := [];
    }

    method CancelDataNode(node: Addr)
      requires Valid()
      modifies this
      ensures Valid() && clients == Without(old(clients), node)
      ensures forall x :: x in clients <==> x in old(clients) && x.node != node
    {
      WithoutKeeps(clients, node, node, 0);
      WithoutExactly(clients, node);
      var iter := 0;
      while iter != |clients|
        invariant iter <= Place(old(clients), node) && clients == old(clients)
        decreases |clients| - iter
      {
        if clients[iter].node == node {
          clients := RemoveAt(clients, iter);
          break;
        }
        iter := iter + 1;
      }
    }

    /** A node that is added again takes the place of its old self, at the end. */
    method AddDataNode(node: Addr, timeout: int, cur: int)
      requires Valid()
      modifies this
      ensures Valid() && clients == Without(old(clients), node) + [Client(node, 1000 * cur, timeout)]
      ensures forall x ::
                x in clients <==> x == Client(node, 1000 * cur, timeout) || (x in old(clients) && x.node != node)
      ensures forall c :: Live(clients, node, c) <==> 1000 * c < 1000 * cur + timeout
    {
      WithoutKeeps(clients, node, node, 0);
      WithoutExactly(clients, node);
      var iter := 0;
      while iter != |clients|
        invariant iter <= Place(old(clients), node) && clients == old(clients)
        decreases |clients| - iter
      {
        if clients[iter].node == node {
          CancelDataNode(clients[iter].node);
          break;
        }
        iter := iter + 1;
      }
      assert clients == Without(old(clients), node);
      NotThere(old(clients), node);
      clients := clients + [Client(node, 1000 * cur, timeout)];
      assert forall i :: 0 <= i < |clients| - 1 ==> clients[i] == Without(old(clients), node)[i];
      assert clients[|clients| - 1].node == node && Place(clients, node) == |clients| - 1;
    }

    /** Recycle, called by the thread that probes the node. */
    method Recycle(node: Addr, cur: int)
      requires Valid()
      modifies this
      ensures Valid() && clients == Answered(old(clients), node, cur)
      ensures |clients| == |old(clients)|
      ensures forall i :: 0 <= i < |clients| ==>
                clients[i] == if old(clients)[i].node == node then Client(node, 1000 * cur, old(clients)[i].timeout)
                              else old(clients)[i]
    {
      var k := Place(clients, node);
      if k < |clients| {
        clients := clients[k := Client(node, 1000 * cur, clients[k].timeout)];
      }
    }

    method IsNodeAlive(node: Addr, cur: int) returns (alive: bool)
      requires Valid()
      modifies this
      ensures Valid() && clients == Asked(old(clients), node, cur)
      ensures alive <==> Live(old(clients), node, cur)
      ensures alive <==>
              exists i ::
                && 0 <= i < |old(clients)| && old(clients)[i].node == node
                && 1000 * cur < old(clients)[i].started + old(clients)[i].timeout
      ensures if alive then clients == old(clients)
              else forall x :: x in clients <==> x in old(clients) && x.node != node
    {
      LiveExactly(clients, node, cur);
      WithoutExactly(clients, node);
      var iter := 0;
      while iter != |clients|
        invariant iter <= Place(clients, node) && clients == old(clients)
        decreases |clients| - iter
      {
        if clients[iter].node == node {
          if clients[iter].IsAlive(cur) {
            return true;
          }
          CancelDataNode(clients[iter].node);
          return false;
        }
        iter := iter + 1;
      }
      return false;
    }
  }

  lemma NotThere(clients: seq<Client>, node: Addr)
    requires OneEach(clients)
    ensures forall i :: 0 <= i < |Without(clients, node)| ==> Without(clients, node)[i].node != node
  {
  }
}
