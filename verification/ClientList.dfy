/** The doubly linked client list of src/ds/llist.c. */
module ClientList {

  datatype Client = Client(fd: int, host: seq<char>, port: int, err: int)

  // ----- Meaning

  /** The place of the first client with this descriptor, |clients| when there is none. */
  function FirstWith(clients: seq<Client>, fd: int): (k: nat)
    ensures k <= |clients|
    ensures k < |clients| ==> clients[k].fd == fd
    ensures forall i :: 0 <= i < k ==> clients[i].fd != fd
  {
    if clients == [] || clients[0].fd == fd then 0 else 1 + FirstWith(clients[1..], fd)
  }

  function Without<T>(s: seq<T>, k: nat): seq<T>
    requires k < |s|
  {
    s[..k] + s[k + 1..]
  }

  /** `remove_client_fd` on the sequence of clients. */
  function Removed(clients: seq<Client>, fd: int): seq<Client> {
    if FirstWith(clients, fd) < |clients| then Without(clients, FirstWith(clients, fd)) else clients
  }

  function Others(clients: seq<Client>, fd: int): seq<Client> {
    if clients == [] then []
    else (if clients[0].fd == fd then [] else [clients[0]]) + Others(clients[1..], fd)
  }

  function Matches(clients: seq<Client>, fd: int): nat {
    if clients == [] then 0 else (if clients[0].fd == fd then 1 else 0) + Matches(clients[1..], fd)
  }

  /** Removing by descriptor takes out one client with it, if there is one, and keeps all other
      clients in order. */
  lemma {:induction false} RemovedTakesOne(clients: seq<Client>, fd: int)
    ensures Others(Removed(clients, fd), fd) == Others(clients, fd)
    ensures Matches(Removed(clients, fd), fd) == if Matches(clients, fd) > 0 then Matches(clients, fd) - 1 else 0
  {
    if clients != [] && clients[0].fd != fd {
      RemovedTakesOne(clients[1..], fd);
      if FirstWith(clients, fd) < |clients| {
        assert Removed(clients, fd) == [clients[0]] + Removed(clients[1..], fd);
      }
    } else if clients != [] {
      assert Removed(clients, fd) == clients[1..];
    }
  }

  /** A client whose descriptor is new is undone by removing that descriptor. */
  lemma {:induction false} RemoveUndoesInsert(clients: seq<Client>, client: Client)
    requires forall i :: 0 <= i < |clients| ==> clients[i].fd != client.fd
    ensures Removed(clients + [client], client.fd) == clients
  {
    assert (clients + [client])[|clients|] == client;
  }

  // ----- The list

  class Node {
    var client: Client
    var prev: Node?
    var next: Node?

    constructor (client: Client)
      ensures this.client == client
    {
      this.client := client;
      prev, next := null, null;
    }
  }

  class List {
    var head: Node?
    var tail: Node?
    ghost var nodes: seq<Node>  // the nodes from head to tail
    ghost var closed: seq<int>  // the descriptors closed so far

    ghost predicate Valid()
      reads this, nodes
    {
      && (forall i, k :: 0 <= i < k < |nodes| ==> nodes[i] != nodes[k])
      && head == (if nodes == [] then null else nodes[0])
      && tail == (if nodes == [] then null else nodes[|nodes| - 1])
      && (forall i {:trigger nodes[i].next} :: 0 <= i < |nodes| ==>
            nodes[i].next == if i + 1 < |nodes| then nodes[i + 1] else null)
      && (forall i {:trigger nodes[i].prev} :: 0 <= i < |nodes| ==>
            nodes[i].prev == if i > 0 then nodes[i - 1] else null)
    }

    ghost function Clients(): (clients: seq<Client>)
      reads this, nodes
      ensures |clients| == |nodes|
      ensures forall i :: 0 <= i < |nodes| ==> clients[i] == nodes[i].client
    {
      seq(|nodes|, i requires 0 <= i < |nodes| reads this, nodes => nodes[i].client)
    }

    /** The node reached from n in so many steps, forward or backward. */
    ghost function Walk(n: Node?, steps: nat, forward: bool): (m: Node?)
      requires Valid() && (n != null ==> n in nodes)
      reads this, nodes
      ensures m != null ==> m in nodes
    {
      if n == null || steps == 0 then n
      else Walk(if forward then n.next else n.prev, steps - 1, forward)
    }

    /** The walk from the head visits every node once and ends; the walk from the tail visits
        them the other way round. */
    lemma {:induction false} WalksAreReverses(i: nat, steps: nat)
      requires Valid() && i < |nodes|
      ensures Walk(nodes[i], steps, true) == if i + steps < |nodes| then nodes[i + steps] else null
      ensures Walk(nodes[i], steps, false) == if steps <= i then nodes[i - steps] else null
      decreases steps
    {
      if steps > 0 {
        if i + 1 < |nodes| {
          WalksAreReverses(i + 1, steps - 1);
        }
        if i > 0 {
          WalksAreReverses(i - 1, steps - 1);
        }
      }
    }

    /** `init_list`. */
    constructor ()
      ensures Valid() && nodes == [] && closed == []
    {
      head, tail := null, null;
      nodes, closed := [], [];
    }

    method InsertClient(client: Client) returns (node: Node)
      requires Valid()
      modifies this, nodes
      ensures Valid() && fresh(node) && nodes == old(nodes) + [node] && closed == old(closed)
      ensures Clients() == old(Clients()) + [client]
    {
      node := new Node(client);
      node.next := null;
      node.prev := tail;
      if tail != null {
        tail.next := node;
      }
      tail := node;
      if head == null {
        head := node;
      }
      nodes := nodes + [node];
    }

    method SearchClient(fd: int) returns (node: Node?)
      requires Valid()
      ensures var k := FirstWith(Clients(), fd);
              node == if k < |nodes| then nodes[k] else null
    {
      ghost var i := 0;
      node := head;
      while node != null
        invariant 0 <= i <= |nodes|
        invariant node == if i < |nodes| then nodes[i] else null
        invariant forall k :: 0 <= k < i ==> nodes[k].client.fd != fd
        decreases |nodes| - i
      {
        if node.client.fd == fd {
          return;
        }
        node := node.next;
        i := i + 1;
      }
    }

    /** The rewiring that both removals share. */
    method Relink(node: Node, ghost k: nat)
      requires Valid() && k < |nodes| && nodes[k] == node
      modifies this, nodes
      ensures Valid() && nodes == Without(old(nodes), k) && closed == old(closed)
      ensures forall i :: 0 <= i < |old(nodes)| ==> old(nodes)[i].client == old(nodes[i].client)
    {
      assert node.prev == (if k > 0 then nodes[k - 1] else null);
      assert node.next == (if k + 1 < |nodes| then nodes[k + 1] else null);
      if node.prev != null {
        node.prev.next := node.next;
      } else {
        head := node.next;
      }
      if node.next != null {
        node.next.prev := node.prev;
      } else {
        tail := node.prev;
      }
      nodes := Without(nodes, k);
    }

    method Unlink(node: Node, ghost k: nat)
      requires Valid() && k < |nodes| && nodes[k] == node
      modifies this, nodes
      ensures Valid() && nodes == Without(old(nodes), k) && closed == old(closed)
      ensures Clients() == Without(old(Clients()), k)
    {
      ghost var before, clients := nodes, Clients();
      Relink(node, k);
      assert forall i :: 0 <= i < |before| ==> before[i].client == clients[i];
    }

    /** 1 for no node; otherwise 0, and exactly that node is gone. */
    method RemoveClientNode(node: Node?) returns (code: int)
      requires Valid() && (node != null ==> node in nodes)
      modifies this, nodes
      ensures Valid() && closed == old(closed)
      ensures code == if node == null then 1 else 0
      ensures node == null ==> nodes == old(nodes) && Clients() == old(Clients())
      ensures forall k :: 0 <= k < |old(nodes)| && old(nodes)[k] == node ==>
                nodes == Without(old(nodes), k) && Clients() == Without(old(Clients()), k)
    {
      if node == null {
        return 1;
      }
      ghost var k :| 0 <= k < |nodes| && nodes[k] == node;
      Unlink(node, k);
      return 0;
    }

    /** Search, then remove what was found. */
    method RemoveClientFd(fd: int) returns (code: int)
      requires Valid()
      modifies this, nodes
      ensures Valid() && closed == old(closed)
      ensures code == if FirstWith(old(Clients()), fd) < |old(nodes)| then 0 else 1
      ensures var k := FirstWith(old(Clients()), fd);
              nodes == if k < |old(nodes)| then Without(old(nodes), k) else old(nodes)
      ensures Clients() == Removed(old(Clients()), fd)
    {
      var node := SearchClient(fd);
      if node == null {
        return 1;
      }
      Unlink(node, FirstWith(Clients(), fd));
      return 0;
    }

    /** Closes the descriptor of every remaining node, once, from head to tail. The tail pointer
        is left as it was, so only a list that was empty may be used again. */
    method FreeList()
      requires Valid()
      modifies this
      ensures head == null && tail == old(tail) && nodes == []
      ensures closed == old(closed) + seq(|old(nodes)|, i requires 0 <= i < |old(nodes)| => old(Clients())[i].fd)
      ensures Valid() <==> old(nodes) == []
    {
      ghost var clients, i := Clients(), 0;
      while head != null
        invariant 0 <= i <= |nodes| && nodes == old(nodes) && tail == old(tail)
        invariant head == if i < |nodes| then nodes[i] else null
        invariant closed == old(closed) + seq(i, k requires 0 <= k < i => clients[k].fd)
        decreases |nodes| - i
      {
        var node := head;
        head := head.next;
        closed := closed + [node.client.fd];
        i := i + 1;
      }
      nodes := [];
    }
  }
}
