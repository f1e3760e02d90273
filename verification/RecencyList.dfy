/** The doubly linked recency list over heap nodes: front is most recently used. */
module RecencyList {
  import opened Sequences

  class Node {
    const key: string
    var prev: Node?
    var next: Node?

    constructor (key: string)
      ensures this.key == key
    {
      this.key := key;
      prev, next := null, null;
    }
  }

  /** The keys along a sequence of nodes. */
  function Keys(nodes: seq<Node>): (r: seq<string>)
    ensures |r| == |nodes|
  {
    if nodes == [] then [] else [nodes[0].key] + Keys(nodes[1..])
  }

  ghost function Remove<T>(s: seq<T>, i: nat): seq<T>
    requires i < |s|
  {
    s[..i] + s[i + 1..]
  }

  lemma {:induction false} KeysRemove(nodes: seq<Node>, i: nat)
    requires i < |nodes|
    ensures Keys(Remove(nodes, i)) == Remove(Keys(nodes), i)
    ensures Keys(nodes)[i] == nodes[i].key
  {
    if i == 0 {
      assert Remove(nodes, 0) == nodes[1..];
    } else {
      KeysRemove(nodes[1..], i - 1);
      assert Remove(nodes, i) == [nodes[0]] + Remove(nodes[1..], i - 1);
      assert Remove(Keys(nodes), i) == [nodes[0].key] + Remove(Keys(nodes[1..]), i - 1);
    }
  }

  lemma {:induction false} DistinctNodes(nodes: seq<Node>)
    requires NoDup(Keys(nodes))
    ensures NoDup(nodes) && forall n :: n in nodes ==> n.key in Keys(nodes)
  {
    if nodes != [] {
      DistinctNodes(nodes[1..]);
    }
  }

  ghost function NodeSet(nodes: seq<Node>): set<Node> {
    set n | n in nodes
  }

  lemma NodeSetLaws(nodes: seq<Node>)
    ensures forall n :: NodeSet([n] + nodes) == NodeSet(nodes) + {n}
  {
  }

  lemma NodeSetRemove(nodes: seq<Node>, i: nat)
    requires NoDup(nodes) && i < |nodes|
    ensures NodeSet(Remove(nodes, i)) == NodeSet(nodes) - {nodes[i]}
  {
    NoDupAt(nodes, i);
    assert nodes == nodes[..i] + [nodes[i]] + nodes[i + 1..];
  }

  /** Unlinking the node at i keeps all keys but its own. */
  lemma KeysWithout(nodes: seq<Node>, i: nat)
    requires NoDup(Keys(nodes)) && i < |nodes|
    ensures Keys(Remove(nodes, i)) == Keep(Keys(nodes), Elements(Keys(nodes)) - {nodes[i].key})
    ensures NoDup(Keys(Remove(nodes, i)))
  {
    KeysRemove(nodes, i);
    RemoveIsKeep(Keys(nodes), i, Elements(Keys(nodes)) - {nodes[i].key});
    KeepNoDup(Keys(nodes), Elements(Keys(nodes)) - {nodes[i].key});
  }

  /** What unlinking the node at i does to the set of nodes and to the keys. */
  lemma UnlinkedNode(nodes: seq<Node>, i: nat)
    requires NoDup(nodes) && NoDup(Keys(nodes)) && i < |nodes|
    ensures NodeSet(Remove(nodes, i)) == NodeSet(nodes) - {nodes[i]}
    ensures Keys(Remove(nodes, i)) == Keep(Keys(nodes), Elements(Keys(nodes)) - {nodes[i].key})
    ensures Keys(Remove(nodes, i)) == Remove(Keys(nodes), i)
    ensures NoDup(Keys(Remove(nodes, i)))
  {
    KeysRemove(nodes, i);
    NodeSetRemove(nodes, i);
    KeysWithout(nodes, i);
  }

  /**
   * The list itself.  `nodes` are its nodes from front to back; clients see the set of nodes and
   * the keys in order.
   */
  class List {
    var head: Node?
    var tail: Node?
    ghost var nodes: seq<Node>
    ghost var members: set<Node>
    ghost var keys: seq<string>

    /** prev and next mirror each other along nodes. */
    ghost predicate Chained()
      reads this, nodes
    {
      && (if nodes == [] then head == null && tail == null
          else head == nodes[0] && tail == nodes[|nodes| - 1])
      && (nodes != [] ==> nodes[0].prev == null && nodes[|nodes| - 1].next == null)
      && (forall i {:trigger nodes[i].prev} :: 0 < i < |nodes| ==> nodes[i].prev == nodes[i - 1])
      && (forall i {:trigger nodes[i].next} :: 0 <= i < |nodes| - 1 ==> nodes[i].next == nodes[i + 1])
    }

    ghost predicate Valid()
      reads this, members, nodes
    {
      && members == NodeSet(nodes)
      && keys == Keys(nodes)
      && NoDup(keys)
      && Chained()
    }

    constructor ()
      ensures Valid() && members == {} && keys == []
    {
      head, tail, nodes, members, keys := null, null, [], {}, [];
    }

    method Link(n: Node)
      requires Chained() && NoDup(nodes) && n !in nodes
      modifies this, nodes, n
      ensures Chained() && nodes == [n] + old(nodes)
      ensures members == old(members) + {n} && keys == [n.key] + old(keys)
    {
      ghost var was := nodes;
      if was != [] {
        NoDupAt(was, 0);
      }
      n.prev, n.next := null, head;
      if head == null {
        tail := n;
      } else {
        head.prev := n;
      }
      head := n;
      nodes, members, keys := [n] + nodes, members + {n}, [n.key] + keys;
      assert forall i :: 0 < i < |nodes| ==> nodes[i] == was[i - 1];
    }

    method Unlink(n: Node, ghost i: nat)
      requires Chained() && NoDup(nodes) && i < |nodes| && nodes[i] == n
      requires i < |keys|
      modifies this, nodes
      ensures Chained() && nodes == Remove(old(nodes), i)
      ensures members == old(members) - {n} && keys == Remove(old(keys), i)
    {
      ghost var was := nodes;
      if i > 0 {
        NoDupAt(was, i - 1);
        assert n.prev == was[i - 1];
      }
      if i + 1 < |was| {
        NoDupAt(was, i + 1);
        assert n.next == was[i + 1];
      }
      if n.prev == null {
        head := n.next;
      } else {
        n.prev.next := n.next;
      }
      if n.next == null {
        tail := n.prev;
      } else {
        n.next.prev := n.prev;
      }
      nodes, members, keys := Remove(was, i), members - {n}, Remove(keys, i);
      assert forall j :: 0 <= j < |nodes| ==> nodes[j] == was[if j < i then j else j + 1];
    }

    method LinkMember(n: Node)
      requires Valid() && n !in members && n.key !in keys
      modifies this, members, n
      ensures Valid() && head == n
      ensures members == old(members) + {n} && keys == [n.key] + old(keys)
    {
      NodeSetLaws(nodes);
      DistinctNodes(nodes);
      Link(n);
    }

    /** std::list::push_front */
    method PushFront(key: string) returns (n: Node)
      requires Valid() && key !in keys
      modifies this, members
      ensures Valid() && fresh(n) && n.key == key
      ensures members == old(members) + {n} && keys == [key] + old(keys)
    {
      n := new Node(key);
      LinkMember(n);
    }

    /** std::list::erase: unlinks the node; no other element moves. */
    method Erase(n: Node)
      requires Valid() && n in members
      modifies this, members
      ensures Valid() && members == old(members) - {n}
      ensures keys == Keep(old(keys), Elements(old(keys)) - {n.key})
    {
      ghost var i :| 0 <= i < |nodes| && nodes[i] == n;
      DistinctNodes(nodes);
      UnlinkedNode(nodes, i);
      Unlink(n, i);
    }

    /** std::list::splice(begin(), *this, n): n keeps its identity and becomes the front. */
    method SpliceToFront(n: Node)
      requires Valid() && n in members
      modifies this, members
      ensures Valid() && head == n && members == old(members)
      ensures keys == [n.key] + Keep(old(keys), Elements(old(keys)) - {n.key})
    {
      if head != n {
        Erase(n);
        LinkMember(n);
      } else {
        RemoveIsKeep(keys, 0, Elements(keys) - {n.key});
      }
    }

    /** std::list::back */
    method Back() returns (key: string)
      requires Valid() && keys != []
      ensures key == keys[|keys| - 1]
    {
      KeysRemove(nodes, |nodes| - 1);
      key := tail.key;
    }

    /** std::list::pop_back */
    method PopBack()
      requires Valid() && keys != []
      modifies this, members
      ensures Valid() && keys == old(keys)[..|old(keys)| - 1]
      ensures exists n :: n in old(members) && n.key == old(keys)[|old(keys)| - 1] && members == old(members) - {n}
    {
      ghost var was, i := keys, |nodes| - 1;
      assert nodes[i] in members;
      KeysRemove(nodes, i);
      RemoveIsKeep(was, i, Elements(was) - {tail.key});
      Erase(tail);
    }
  }
}
