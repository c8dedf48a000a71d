/**
 ll.c: the doubly linked list of outstanding requests, updated in place and proved to refine
 the sequence operations of BrokerSpec.

 `nodes` is the list from head to tail and `blocks` the calloc'ed, not yet freed nodes; Valid
 says the list's nodes are all of them, so nothing is leaked and nothing is freed twice. A
 failing lock or calloc is a parameter.
 */
module Broker {
  import opened Ipmb
  import opened Options
  import opened BrokerSpec

  class Node {
    var request: Message
    var prev: Node?
    var next: Node?

    constructor (request: Message)
      ensures this.request == request && prev == null && next == null
    {
      this.request := request;
      prev, next := null, null;
    }
  }

  /** The nodes from h on are ns: all different, prev and next mirror each other, nothing
      precedes the first and nothing follows the last. */
  ghost predicate Chain(h: Node?, ns: seq<Node>)
    reads ns
  {
    && (forall i, j :: 0 <= i < j < |ns| ==> ns[i] != ns[j])
    && (forall i, j :: 0 <= i < j < |ns| && j == i + 1 ==> ns[i].next == ns[j] && ns[j].prev == ns[i])
    && h == At(ns, 0)
    && (ns != [] ==> ns[0].prev == null && ns[|ns| - 1].next == null)
  }

  ghost function At(ns: seq<Node>, i: int): Node? {
    if 0 <= i < |ns| then ns[i] else null
  }

  class MarriageBroker {
    var head: Node?
    ghost var nodes: seq<Node>
    ghost var blocks: set<Node>

    constructor ()
      ensures Valid() && Requests() == [] && blocks == {}
    {
      head := null;
      nodes := [];
      blocks := {};
    }

    ghost predicate Valid()
      reads this, nodes
    {
      && Chain(head, nodes)
      && (forall i :: 0 <= i < |nodes| ==> nodes[i] in blocks)
      && |blocks| == |nodes|
    }

    /** The outstanding requests, oldest first. */
    ghost function Requests(): (s: seq<Message>)
      reads this, nodes
      ensures |s| == |nodes|
    {
      seq(|nodes|, i requires 0 <= i < |nodes| reads this, nodes => nodes[i].request)
    }

    /** free(): a block can be given back only once. */
    ghost method Free(node: Node)
      requires node in blocks
      modifies this`blocks
      ensures blocks == old(blocks) - {node}
    {
      blocks := blocks - {node};
    }

    /** ll_add on the head pointer: walk to the end and tack on a new node. */
    method Add(m: Message, outOfMemory: bool) returns (err: int)
      requires Valid()
      modifies this, blocks`next, blocks`prev
      ensures Valid()
      ensures err == if outOfMemory then ENOMEM else 0
      ensures Requests() == if outOfMemory then old(Requests()) else old(Requests()) + [m]
      ensures fresh(blocks - old(blocks)) && old(nodes) <= nodes
    {
      if outOfMemory { return ENOMEM; }
      var node := new Node(m);
      Append(node);
      blocks := blocks + {node};
      return 0;
    }

    method Append(node: Node)
      requires Valid() && node !in blocks && node.next == null && node.prev == null
      modifies this`head, this`nodes, blocks`next, node`prev
      ensures Chain(head, nodes) && nodes == old(nodes) + [node]
    {
      if head == null {
        head := node;
      } else {
        var cur := head;
        ghost var k := 0;
        while cur.next != null
          invariant k < |nodes| && cur == nodes[k]
          invariant cur.next == At(nodes, k + 1)
          decreases |nodes| - k
        {
          cur := cur.next;
          k := k + 1;
        }
        cur.next := node;
        node.prev := cur;
      }
      nodes := nodes + [node];
    }

    method Post(m: Message, lockErr: int, outOfMemory: bool) returns (err: int)
      requires Valid()
      modifies this, blocks`next, blocks`prev
      ensures Valid()
      ensures err == if !RequestMessage(m) then EINVAL else if lockErr != 0 then lockErr
                     else if outOfMemory then ENOMEM else 0
      ensures Requests() == if err == 0 then old(Requests()) + [m] else old(Requests())
      ensures fresh(blocks - old(blocks))
    {
      var ok := ValidRequestMsg(m);
      if !ok { return EINVAL; }
      if lockErr != 0 { return lockErr; }
      err := Add(m, outOfMemory);
    }

    /** ll_find: one pass that stops at a perfect match and remembers the first fuzzy one. */
    method Find(m: Message, i2c: bool) returns (found: Node?)
      requires Valid()
      ensures found == match Match(Requests(), m, i2c) case Some(k) => nodes[k] case None => null
    {
      var netFn := m.data[0] / 4 - (m.data[0] / 4) % 2;
      var node := head;
      ghost var k := 0;
      ghost var f := |nodes|;   // where found is
      ghost var reqs := Requests();
      found := null;
      while node != null
        invariant k <= |nodes| && node == At(nodes, k)
        invariant forall i :: 0 <= i < k ==> !Perfect(reqs[i], m, i2c)
        invariant found == null ==> forall i :: 0 <= i < k ==> !Candidate(reqs[i], m, i2c)
        invariant 0 <= f
        invariant found != null ==> f < k && found == nodes[f] && Candidate(reqs[f], m, i2c)
        invariant found != null ==> forall i :: 0 <= i < f ==> !Candidate(reqs[i], m, i2c)
        decreases |nodes| - k
      {
        if SameOrigin(node.request, i2c) {
          if m.data[2] == node.request.dst && netFn == node.request.data[0] / 4 {
            if m.data[4] == node.request.data[4] {
              if m.data[3] == node.request.data[3] {
                found := node;
                assert Perfect(reqs[k], m, i2c);
                assert FirstPerfect(reqs, m, i2c) == k;
                return;
              } else if found == null {
                found := node;
                f := k;
              }
            }
          }
        }
        node := node.next;
        k := k + 1;
      }
    }

    /** The relinking shared by ll_get and ll_flush. */
    method Relink(node: Node, ghost k: nat)
      requires Valid() && k < |nodes| && node == nodes[k]
      modifies this`head, blocks`next, blocks`prev
      ensures Chain(head, nodes[..k] + nodes[k + 1..])
    {
      assert k + 1 < |nodes| ==> node.next == nodes[k + 1];
      assert 0 < k ==> node.prev == nodes[k - 1];
      if head == node {
        assert k == 0;
        head := node.next;
        if head != null {
          head.prev := null;
        }
      } else {
        node.prev.next := node.next;
        if node.next != null {
          node.next.prev := node.prev;
        }
      }
    }

    /** Take node out of the list and free it. */
    method Unlink(node: Node, ghost k: nat)
      requires Valid() && k < |nodes| && node == nodes[k]
      modifies this, blocks`next, blocks`prev
      ensures Valid()
      ensures nodes == old(nodes[..k] + nodes[k + 1..])
      ensures Requests() == RemoveAt(old(Requests()), k)
      ensures blocks == old(blocks) - {node}
    {
      Relink(node, k);
      nodes := nodes[..k] + nodes[k + 1..];
      Free(node);
    }

    method Get(m: Message, i2c: bool, lockErr: int) returns (retval: int, r: int)
      requires Valid()
      modifies this, blocks`next, blocks`prev
      ensures Valid()
      ensures lockErr != 0 ==> retval == -1 && Requests() == old(Requests())
      ensures lockErr == 0 ==>
                match old(Match(Requests(), m, i2c))
                case None => retval == 0 && Requests() == old(Requests())
                case Some(k) => && retval == 1 && r == old(Requests())[k].resource
                                && Requests() == RemoveAt(old(Requests()), k)
    {
      r := 0;
      if lockErr != 0 { return -1, r; }
      var node := Find(m, i2c);
      if node == null {
        retval := 0;
      } else {
        r := node.request.resource;
        ghost var k := Match(Requests(), m, i2c).value;
        Unlink(node, k);
        retval := 1;
      }
    }

    /** One turn of the loop of ll_flush: drop the node or step over it. */
    method Review(node: Node, ghost k: nat, resource: int) returns (next: Node?)
      requires Valid() && k < |nodes| && node == nodes[k]
      modifies this, blocks`next, blocks`prev
      ensures Valid()
      ensures Requests() == if old(node.request.resource) == resource
                            then RemoveAt(old(Requests()), k) else old(Requests())
      ensures next == At(nodes, if old(node.request.resource) == resource then k else k + 1)
      ensures blocks <= old(blocks)
    {
      assert k + 1 < |nodes| ==> node.next == nodes[k + 1];
      next := node.next;
      if node.request.resource == resource {
        Unlink(node, k);
      }
    }

    method Flush(resource: int, lockErr: int) returns (err: int)
      requires Valid()
      modifies this, blocks`next, blocks`prev
      ensures Valid()
      ensures err == if lockErr != 0 then -1 else 0
      ensures Requests() == if lockErr != 0 then old(Requests()) else Without(old(Requests()), resource)
      ensures blocks <= old(blocks)
    {
      if lockErr != 0 { return -1; }
      ghost var reqs := Requests();
      var node := head;
      ghost var j := 0;     // nodes reviewed
      ghost var k := 0;     // of which kept
      FlushStart(reqs, resource);
      while node != null
        invariant Valid() && blocks <= old(blocks)
        invariant j <= |reqs| && Reviewed(reqs, j, resource, k, Requests())
        invariant node == At(nodes, k)
        decreases |nodes| - k
      {
        FlushStep(reqs, j, resource, k, Requests());
        ghost var drop := node.request.resource == resource;
        node := Review(node, k, resource);
        j := j + 1;
        k := if drop then k else k + 1;
      }
      FlushEnd(reqs, j, resource, k, Requests());
      return 0;
    }
  }
}
