/** The list of connected devices: a circular doubly linked list behind a head node, and the sequence of entries
    that it stands for. */
module DeviceList {
  import opened Common

  /** Address text of a device and its connection handle. */
  datatype Entry = Entry(address: string, connection: nat)

  // The entry sequence.

  /** Index of the first entry with the address, or the length. */
  function FindAddress(es: seq<Entry>, address: string): (i: nat)
    ensures i <= |es|
    ensures i < |es| ==> es[i].address == address
    ensures forall j :: 0 <= j < i ==> es[j].address != address
  {
    if es == [] || es[0].address == address then 0 else 1 + FindAddress(es[1..], address)
  }

  /** Index of the first entry with the handle, or the length. */
  function FindConnection(es: seq<Entry>, connection: nat): (i: nat)
    ensures i <= |es|
    ensures i < |es| ==> es[i].connection == connection
    ensures forall j :: 0 <= j < i ==> es[j].connection != connection
  {
    if es == [] || es[0].connection == connection then 0 else 1 + FindConnection(es[1..], connection)
  }

  function Added(es: seq<Entry>, address: string, connection: nat): seq<Entry> {
    var i := FindAddress(es, address);
    if i < |es| then es[i := Entry(address, connection)] else es + [Entry(address, connection)]
  }

  function Deleted(es: seq<Entry>, connection: nat): seq<Entry> {
    var i := FindConnection(es, connection);
    if connection == 0 || i == |es| then es else es[..i] + es[i + 1..]
  }

  class Node {
    var address: string
    var connection: nat
    var next: Node
    var prev: Node

    /** A node linked to itself, as INIT_LIST_HEAD leaves it. */
    constructor (address: string, connection: nat)
      ensures this.address == address && this.connection == connection
      ensures next == this && prev == this
    {
      this.address, this.connection := address, connection;
      this.next, this.prev := this, this;
    }
  }

  ghost predicate Distinct(ns: seq<Node>) {
    forall i, j :: 0 <= i < j < |ns| ==> ns[i] != ns[j]
  }

  ghost predicate NextCircle(ns: seq<Node>)
    reads ns`next
  {
    forall i {:trigger ns[i].next} :: 0 <= i < |ns| ==> ns[i].next == ns[if i + 1 == |ns| then 0 else i + 1]
  }

  ghost predicate PrevCircle(ns: seq<Node>)
    reads ns`prev
  {
    forall i {:trigger ns[i].prev} :: 0 <= i < |ns| ==> ns[i].prev == ns[if i == 0 then |ns| - 1 else i - 1]
  }

  lemma {:induction false} DistinctWithout(all: seq<Node>, at: nat)
    requires at < |all| && Distinct(all)
    ensures Distinct(all[..at] + all[at + 1..])
  {
  }

  method LinkNextPast(before: Node, after: Node, ghost all: seq<Node>, ghost at: nat)
    requires 1 <= at < |all| && Distinct(all) && NextCircle(all)
    requires before == all[at - 1] && after == all[if at + 1 == |all| then 0 else at + 1]
    modifies before`next
    ensures NextCircle(all[..at] + all[at + 1..])
  {
    before.next := after;
    ghost var ns := all[..at] + all[at + 1..];
    forall i | 0 <= i < |ns| ensures ns[i].next == ns[if i + 1 == |ns| then 0 else i + 1] {
      ghost var k := if i < at then i else i + 1;
      assert ns[i] == all[k];
      assert k != at - 1 ==> all[k].next == old(all[k].next);
    }
  }

  method LinkPrevPast(before: Node, after: Node, ghost all: seq<Node>, ghost at: nat)
    requires 1 <= at < |all| && Distinct(all) && PrevCircle(all)
    requires before == all[at - 1] && after == all[if at + 1 == |all| then 0 else at + 1]
    modifies after`prev
    ensures PrevCircle(all[..at] + all[at + 1..])
  {
    after.prev := before;
    ghost var ns := all[..at] + all[at + 1..];
    forall i | 0 <= i < |ns| ensures ns[i].prev == ns[if i == 0 then |ns| - 1 else i - 1] {
      ghost var k := if i < at then i else i + 1;
      assert ns[i] == all[k];
      assert all[k] != after ==> all[k].prev == old(all[k].prev);
    }
  }

  lemma {:induction false} DistinctWith(all: seq<Node>, node: Node)
    requires Distinct(all) && node !in all
    ensures Distinct(all + [node])
  {
  }

  method LinkNextTail(node: Node, ghost all: seq<Node>, last: Node, head: Node)
    requires all != [] && Distinct(all) && NextCircle(all) && node !in all
    requires last == all[|all| - 1] && head == all[0]
    modifies node`next, last`next
    ensures NextCircle(all + [node])
  {
    node.next := head;
    last.next := node;
    ghost var ns := all + [node];
    forall i | 0 <= i < |ns| ensures ns[i].next == ns[if i + 1 == |ns| then 0 else i + 1] {
      if i < |all| - 1 {
        assert ns[i] == all[i];
        assert all[i].next == old(all[i].next);
      }
    }
  }

  method LinkPrevTail(node: Node, ghost all: seq<Node>, last: Node, head: Node)
    requires all != [] && Distinct(all) && PrevCircle(all) && node !in all
    requires last == all[|all| - 1] && head == all[0]
    modifies node`prev, head`prev
    ensures PrevCircle(all + [node])
  {
    head.prev := node;
    node.prev := last;
    ghost var ns := all + [node];
    forall i | 0 <= i < |ns| ensures ns[i].prev == ns[if i == 0 then |ns| - 1 else i - 1] {
      if 0 < i < |all| {
        assert ns[i] == all[i];
        assert all[i].prev == old(all[i].prev);
      }
    }
  }

  method LinkTail(node: Node, ghost all: seq<Node>, last: Node, head: Node)
    requires all != [] && Distinct(all) && NextCircle(all) && PrevCircle(all) && node !in all
    requires last == all[|all| - 1] && head == all[0]
    modifies node`next, node`prev, last`next, head`prev
    ensures NextCircle(all + [node]) && PrevCircle(all + [node])
  {
    LinkPrevTail(node, all, last, head);
    LinkNextTail(node, all, last, head);
  }

  /** A circle without the node after its head. */
  lemma {:induction false} ButOne(all: seq<Node>)
    requires |all| >= 2
    ensures var ns := all[..1] + all[2..];
            && ns[if |ns| == 1 then 0 else 1] == all[if |all| == 2 then 0 else 2]
            && forall n :: n in ns ==> n in all
  {
    var ns := all[..1] + all[2..];
    assert forall i :: 0 <= i < |ns| ==> ns[i] == all[if i == 0 then 0 else i + 1];
  }

  class DeviceManager {
    const head: Node
    ghost var nodes: seq<Node>

    /** nodes[0] is the head; next and prev run through the nodes in a circle. */
    ghost predicate Valid()
      reads this, nodes
    {
      nodes != [] && nodes[0] == head && Distinct(nodes) && NextCircle(nodes) && PrevCircle(nodes)
    }

    ghost function Entries(): (es: seq<Entry>)
      reads this, nodes
      requires Valid()
      ensures |es| == |nodes| - 1
    {
      seq(|nodes| - 1, i requires 0 <= i < |nodes| - 1 reads this, nodes =>
        Entry(nodes[i + 1].address, nodes[i + 1].connection))
    }

    constructor ()
      ensures Valid() && Entries() == []
      ensures fresh(head) && nodes == [head]
    {
      head := new Node("", 0);
      nodes := [head];
    }

    method SearchByAddress(address: string) returns (node: Node?, ghost at: nat)
      requires Valid()
      ensures at == FindAddress(Entries(), address)
      ensures node == if at < |Entries()| then nodes[at + 1] else null
    {
      at := 0;
      var cursor := head.next;
      while cursor != head
        invariant at <= |Entries()| && cursor == nodes[if at == |Entries()| then 0 else at + 1]
        invariant forall j :: 0 <= j < at ==> Entries()[j].address != address
        decreases |nodes| - at
      {
        if cursor.address == address {
          assert Entries()[at].address == address;
          return cursor, at;
        }
        cursor := cursor.next;
        at := at + 1;
      }
      node := null;
    }

    method SearchByConnection(connection: nat) returns (node: Node?, ghost at: nat)
      requires Valid()
      ensures at == FindConnection(Entries(), connection)
      ensures node == if at < |Entries()| then nodes[at + 1] else null
    {
      at := 0;
      var cursor := head.next;
      while cursor != head
        invariant at <= |Entries()| && cursor == nodes[if at == |Entries()| then 0 else at + 1]
        invariant forall j :: 0 <= j < at ==> Entries()[j].connection != connection
        decreases |nodes| - at
      {
        if cursor.connection == connection {
          assert Entries()[at].connection == connection;
          return cursor, at;
        }
        cursor := cursor.next;
        at := at + 1;
      }
      node := null;
    }

    /** list_add_tail */
    method Append(node: Node)
      requires Valid() && node !in nodes
      modifies this`nodes, nodes`next, nodes`prev, node`next, node`prev
      ensures Valid() && nodes == old(nodes) + [node]
    {
      var last := head.prev;
      ghost var all := nodes;
      assert last == all[|all| - 1];
      LinkTail(node, all, last, head);
      DistinctWith(all, node);
      nodes := all + [node];
    }

    /** list_del */
    method Unlink(node: Node, ghost at: nat)
      requires Valid() && 1 <= at < |nodes| && nodes[at] == node
      modifies this`nodes, nodes`next, nodes`prev
      ensures Valid() && nodes == old(nodes[..at] + nodes[at + 1..])
    {
      var before, after := node.prev, node.next;
      assert before == nodes[at - 1];
      assert after == nodes[if at + 1 == |nodes| then 0 else at + 1];
      LinkPrevPast(before, after, nodes, at);
      LinkNextPast(before, after, nodes, at);
      DistinctWithout(nodes, at);
      nodes := nodes[..at] + nodes[at + 1..];
    }

    /** list_del, seen on the entries. */
    method Remove(node: Node, ghost at: nat)
      requires Valid() && at < |Entries()| && nodes[at + 1] == node
      modifies this`nodes, nodes`next, nodes`prev
      ensures Valid() && nodes == old(nodes[..at + 1] + nodes[at + 2..])
      ensures Entries() == old(Entries()[..at] + Entries()[at + 1..])
    {
      ghost var es, all := Entries(), nodes;
      Unlink(node, at + 1);
      forall i | 0 <= i < |nodes| - 1
        ensures Entries()[i] == (es[..at] + es[at + 1..])[i]
      {
        ghost var k := if i < at then i else i + 1;
        assert nodes[i + 1] == all[k + 1];
        assert all[k + 1] in all;
      }
    }

    /** ble_dev_mgr_add */
    method Add(address: string, connection: nat) returns (code: Code)
      requires Valid()
      modifies this, nodes
      ensures Valid() && code == Success
      ensures Entries() == Added(old(Entries()), address, connection)
    {
      var node, at := SearchByAddress(address);
      if node == null {
        Insert(address, connection);
      } else {
        Update(node, at, connection);
      }
      code := Success;
    }

    method Insert(address: string, connection: nat)
      requires Valid()
      modifies this, nodes
      ensures Valid() && Entries() == old(Entries()) + [Entry(address, connection)]
    {
      ghost var es, all := Entries(), nodes;
      var added := new Node(address, connection);
      Append(added);
      forall i | 0 <= i < |es| ensures Entries()[i] == es[i] {
        assert nodes[i + 1] == all[i + 1];
        assert all[i + 1] in all;
      }
    }

    method Update(node: Node, ghost at: nat, connection: nat)
      requires Valid() && at < |Entries()| && nodes[at + 1] == node
      modifies node`connection
      ensures Valid() && Entries() == old(Entries())[at := Entry(old(Entries())[at].address, connection)]
    {
      ghost var es := Entries();
      node.connection := connection;
      forall i | 0 <= i < |es| && i != at ensures Entries()[i] == es[i] {
        assert nodes[i + 1] != node;
      }
    }

    /** ble_dev_mgr_del */
    method Del(connection: nat) returns (code: Code)
      requires Valid()
      modifies this, nodes
      ensures Valid()
      ensures Entries() == Deleted(old(Entries()), connection)
      ensures code == if connection == 0 then ParamError
                      else if FindConnection(old(Entries()), connection) == |old(Entries())| then MessageError
                      else Success
    {
      if connection == 0 {
        return ParamError;
      }
      var node, at := SearchByConnection(connection);
      if node == null {
        return MessageError;
      }
      Remove(node, at);
      code := Success;
    }

    /** ble_dev_mgr_get_address; the text is empty unless the code is Success. */
    method GetAddress(connection: nat) returns (code: Code, address: string)
      requires Valid()
      ensures var i := FindConnection(Entries(), connection);
              if connection == 0 then code == ParamError
              else if i == |Entries()| then code == MessageError
              else code == Success && address == Entries()[i].address
    {
      if connection == 0 {
        return ParamError, "";
      }
      var node, at := SearchByConnection(connection);
      if node == null {
        return MessageError, "";
      }
      return Success, node.address;
    }

    /** ble_dev_mgr_get_connection; the address is a pointer that may be null. */
    method GetConnection(address: Option<string>) returns (code: Code, connection: nat)
      requires Valid()
      ensures match address
              case None => code == ParamError
              case Some(text) =>
                var i := FindAddress(Entries(), text);
                if i == |Entries()| then code == MessageError
                else code == Success && connection == Entries()[i].connection
    {
      if address.None? {
        return ParamError, 0;
      }
      var node, at := SearchByAddress(address.value);
      if node == null {
        return MessageError, 0;
      }
      return Success, node.connection;
    }

    /** ble_dev_mgr_get_list_size */
    method ListSize() returns (size: nat)
      requires Valid()
      ensures size == |Entries()|
    {
      size := 0;
      var cursor := head.next;
      while cursor != head
        invariant size <= |Entries()| && cursor == nodes[if size == |Entries()| then 0 else size + 1]
        decreases |nodes| - size
      {
        cursor := cursor.next;
        size := size + 1;
      }
    }

    /** ble_dev_mgr_del_all */
    method DelAll()
      requires Valid()
      modifies this, nodes
      ensures Valid() && Entries() == [] && nodes == [head]
    {
      var cursor := head.next;
      assert cursor == nodes[0].next;
      while cursor != head
        invariant Valid() && cursor == nodes[if |nodes| == 1 then 0 else 1]
        invariant forall i :: 0 <= i < |nodes| ==> nodes[i] in old(nodes)
        decreases |nodes|
      {
        ghost var all := nodes;
        var after := cursor.next;
        assert after == all[1].next;
        Unlink(cursor, 1);
        ButOne(all);
        cursor := after;
      }
    }
  }
}
