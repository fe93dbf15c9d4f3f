/** The cache on the heap: a doubly linked list in both directions and a map from keys to its nodes. */
module LruCaches {
  import opened LruSpec

  class ListNode {
    var head: ListNode?
    var key: int
    var val: int
    var tail: ListNode?

    constructor (key: int, val: int)
      ensures this.key == key && this.val == val && head == null && tail == null
    {
      this.key, this.val := key, val;
      head, tail := null, null;
    }
  }

  class LRUCache {
    var capacity: int
    var head: ListNode?
    var tail: ListNode?
    var cache: map<int, ListNode>
    ghost var nodes: seq<ListNode>  // from head to tail

    /** The links of `nodes` run from head to tail and back, and no node occurs twice. */
    ghost predicate Linked()
      reads this`head, this`tail, this`nodes, nodes`head, nodes`tail
    {
      && (forall i, j :: 0 <= i < j < |nodes| ==> nodes[i] != nodes[j])
      && head == (if nodes == [] then null else nodes[0])
      && tail == (if nodes == [] then null else nodes[|nodes| - 1])
      && (forall i {:trigger nodes[i].head} :: 0 <= i < |nodes| ==>
            nodes[i].head == if i == 0 then null else nodes[i - 1])
      && (forall i {:trigger nodes[i].tail} :: 0 <= i < |nodes| ==>
            nodes[i].tail == if i == |nodes| - 1 then null else nodes[i + 1])
    }

    /** The map and the list hold the same nodes, each under its key. */
    ghost predicate Mapped()
      reads this`cache, this`nodes, nodes`key
    {
      && (forall i :: 0 <= i < |nodes| ==> nodes[i].key in cache && cache[nodes[i].key] == nodes[i])
      && (forall k :: k in cache ==> cache[k] in nodes && cache[k].key == k)
      && |cache| == |nodes|
    }

    /** The items are what the nodes contain. */
    ghost predicate Holds(items: seq<Item>)
      reads this`nodes, nodes`key, nodes`val
    {
      |items| == |nodes| && forall i :: 0 <= i < |nodes| ==> items[i] == Item(nodes[i].key, nodes[i].val)
    }

    ghost predicate Valid()
      reads this, nodes
    {
      capacity >= 1 && Linked() && Mapped() && |nodes| <= capacity
    }

    ghost function Items(): (items: seq<Item>)
      reads this, nodes
      ensures Holds(items)
    {
      seq(|nodes|, i requires 0 <= i < |nodes| reads this, nodes => Item(nodes[i].key, nodes[i].val))
    }

    lemma {:induction false} HoldsItems(items: seq<Item>)
      requires Holds(items)
      ensures items == Items()
    {
    }

    constructor (capacity: int)
      requires capacity >= 1
      ensures Valid() && this.capacity == capacity && Items() == []
    {
      this.capacity := capacity;
      head, tail, cache, nodes := null, null, map[], [];
    }

    method InsertHead(now: ListNode, ghost items: seq<Item>)
      requires Linked() && Holds(items) && now !in nodes
      modifies this`head, this`tail, this`nodes, now`head, now`tail, nodes`head
      ensures Linked() && Holds([Item(now.key, now.val)] + items) && nodes == [now] + old(nodes)
    {
      now.tail := head;
      now.head := null;
      if head != null { head.head := now; }
      head := now;
      if tail == null { tail := head; }
      nodes := [now] + nodes;
    }

    method DeleteNode(node: ListNode, ghost i: nat)
      requires Linked() && i < |nodes| && nodes[i] == node
      modifies this`head, this`tail, this`nodes, nodes`head, nodes`tail
      ensures Linked() && nodes == old(nodes)[..i] + old(nodes)[i + 1..]
    {
      assert node.head != null ==> node.head == nodes[i - 1];
      assert node.tail != null ==> node.tail == nodes[i + 1];
      if node.head == null {
        head := node.tail;
      } else {
        node.head.tail := node.tail;
      }
      if node.tail == null {
        tail := node.head;
      } else {
        node.tail.head := node.head;
      }
      nodes := nodes[..i] + nodes[i + 1..];
    }

    /** Nodes keep their keys and values when one of them is unlinked. */
    method Unlink(node: ListNode, ghost i: nat, ghost items: seq<Item>)
      requires Linked() && Holds(items) && i < |nodes| && nodes[i] == node
      modifies this`head, this`tail, this`nodes, nodes`head, nodes`tail
      ensures Linked() && Holds(items[..i] + items[i + 1..]) && nodes == old(nodes)[..i] + old(nodes)[i + 1..]
    {
      DeleteNode(node, i);
      forall k | 0 <= k < |nodes|
        ensures (items[..i] + items[i + 1..])[k] == Item(nodes[k].key, nodes[k].val)
      {
        assert nodes[k] == old(nodes)[if k < i then k else k + 1];
      }
    }

    /** The same nodes in another order, with the same keys, fit the same map. */
    twostate lemma {:induction false} SameNodesMapped()
      requires old(Mapped()) && cache == old(cache)
      requires |nodes| == |old(nodes)| && forall x :: x in nodes <==> x in old(nodes)
      requires forall x :: x in old(nodes) ==> x.key == old(x.key)
      ensures Mapped()
    {
      assert forall k :: 0 <= k < |nodes| ==> nodes[k] in old(nodes);
    }

    /** The map without the key of the last node fits the list without that node. */
    twostate lemma {:induction false} ShorterMapped(node: ListNode)
      requires old(Mapped()) && old(Linked()) && old(nodes) == nodes + [node] && cache == old(cache) - {old(node.key)}
      requires forall x :: x in old(nodes) ==> x.key == old(x.key)
      ensures Mapped()
    {
      assert old(cache).Keys == cache.Keys + {old(node.key)};
      assert forall k :: 0 <= k < |nodes| ==> nodes[k] == old(nodes)[k];
    }

    /** The map with one more key fits the list with that node in front. */
    twostate lemma {:induction false} LongerMapped(node: ListNode)
      requires old(Mapped()) && node !in old(nodes) && node.key !in old(cache)
      requires nodes == [node] + old(nodes) && cache == old(cache)[node.key := node]
      requires forall x :: x in old(nodes) ==> x.key == old(x.key)
      ensures Mapped()
    {
      assert cache.Keys == old(cache).Keys + {node.key};
      assert forall k :: 0 < k < |nodes| ==> nodes[k] == old(nodes)[k - 1];
    }

    /** The moves of get and of a put on a present key. */
    method MoveToFront(node: ListNode, ghost i: nat, ghost items: seq<Item>)
      requires Linked() && Holds(items) && i < |nodes| && nodes[i] == node
      modifies this`head, this`tail, this`nodes, nodes`head, nodes`tail
      ensures Linked() && Holds(ToFront(items, i)) && nodes == ToFront(old(nodes), i)
    {
      Unlink(node, i, items);
      InsertHead(node, items[..i] + items[i + 1..]);
    }

    /** The position in the list of the node that the map gives for a key. */
    ghost function Position(key: int, items: seq<Item>): (i: nat)
      requires Valid() && Holds(items) && key in cache
      reads this, nodes
      ensures i == Find(items, key) && Has(items, key) && i < |nodes| && nodes[i] == cache[key]
    {
      var i :| 0 <= i < |nodes| && nodes[i] == cache[key];
      assert items[i].key == key && nodes[i].key == key;
      assert forall j :: 0 <= j < i ==> nodes[j] != nodes[i];
      Find(items, key)
    }

    lemma {:induction false} Absent(key: int, items: seq<Item>)
      requires Valid() && Holds(items) && key !in cache
      ensures !Has(items, key)
    {
    }

    lemma {:induction false} Sizes(items: seq<Item>)
      requires Mapped() && Holds(items)
      ensures |cache| == |nodes| == |items|
    {
    }

    method TouchAt(node: ListNode, ghost i: nat, ghost items: seq<Item>)
      requires Linked() && Mapped() && Holds(items) && i < |nodes| && nodes[i] == node
      modifies this`head, this`tail, this`nodes, nodes`head, nodes`tail
      ensures Linked() && Mapped() && Holds(ToFront(items, i))
      ensures |nodes| == |old(nodes)| && forall x :: x in nodes <==> x in old(nodes)
    {
      hide Linked, Holds;
      ToFrontMembers(nodes, i);
      MoveToFront(node, i, items);
      SameNodesMapped();
    }

    method Touch(key: int, ghost items: seq<Item>)
      requires Valid() && Holds(items) && key in cache
      modifies this`head, this`tail, this`nodes, nodes`head, nodes`tail
      ensures Valid() && Has(items, key) && Holds(ToFront(items, Find(items, key)))
      ensures forall x :: x in nodes <==> x in old(nodes)
    {
      hide Linked, Mapped, Holds;
      ghost var i := Position(key, items);
      TouchAt(cache[key], i, items);
    }

    method Get(key: int) returns (val: int)
      requires Valid()
      modifies this`head, this`tail, this`nodes, nodes`head, nodes`tail
      ensures Valid() && Items() == GetItems(old(Items()), key) && val == GetValue(old(Items()), key)
      ensures (forall i :: 0 <= i < |old(Items())| ==> old(Items())[i].key != key) ==> val == -1
      ensures (exists i :: 0 <= i < |old(Items())| && old(Items())[i].key == key) ==> Item(key, val) in old(Items())
      ensures forall x :: x in nodes <==> x in old(nodes)
    {
      ghost var items := Items();
      if key in cache {
        var tmp := cache[key];
        ghost var i := Position(key, items);
        Touch(key, items);
        HoldsItems(GetItems(items, key));
        return tmp.val;
      }
      Absent(key, items);
      return -1;
    }

    method LinkMapped(node: ListNode, ghost items: seq<Item>)
      requires Linked() && Mapped() && Holds(items) && node !in nodes && node.key !in cache
      modifies this`head, this`tail, this`nodes, this`cache, node`head, node`tail, nodes`head
      ensures Linked() && Mapped() && Holds([Item(node.key, node.val)] + items) && nodes == [node] + old(nodes)
    {
      hide Linked, Holds, Mapped;
      InsertHead(node, items);
      cache := cache[node.key := node];
      LongerMapped(node);
    }

    method DeleteTail(ghost items: seq<Item>)
      requires Linked() && nodes != [] && Holds(items)
      modifies this`head, this`tail, this`nodes, nodes`head, nodes`tail
      ensures Linked() && Holds(items[..|items| - 1]) && nodes == old(nodes)[..|old(nodes)| - 1]
    {
      ghost var last := |nodes| - 1;
      Unlink(tail, last, items);
      assert items[..last] + items[last + 1..] == items[..last];
      assert nodes == old(nodes)[..last];
    }

    static lemma {:induction false} LastApart(nodes: seq<ListNode>)
      requires nodes != []
      ensures var last := |nodes| - 1;
              nodes == nodes[..last] + [nodes[last]] && forall x :: x in nodes <==> x in nodes[..last] || x == nodes[last]
    {
    }

    lemma {:induction false} TailIsLast()
      requires Linked() && nodes != []
      ensures tail == nodes[|nodes| - 1] && tail !in nodes[..|nodes| - 1]
    {
    }

    /** The last node leaves both the map and the list. */
    method Evict(ghost items: seq<Item>) returns (node: ListNode)
      requires Valid() && nodes != [] && Holds(items)
      modifies this`head, this`tail, this`nodes, this`cache, nodes`head, nodes`tail
      ensures Linked() && Mapped() && Holds(items[..|items| - 1]) && cache == old(cache) - {old(tail.key)}
      ensures old(nodes) == nodes + [node] && node !in nodes
      ensures forall x :: x in old(nodes) <==> x in nodes || x == node
    {
      hide Linked, Holds, Mapped;
      TailIsLast();
      LastApart(nodes);
      node := tail;
      cache := cache - {tail.key};
      DeleteTail(items);
      ShorterMapped(node);
    }

    /** The new node goes to the front of the list and into the map. */
    method InsertNew(node: ListNode, ghost items: seq<Item>)
      requires capacity >= 1 && Linked() && Mapped() && Holds(items) && |nodes| < capacity
      requires node !in nodes && node.key !in cache
      modifies this`head, this`tail, this`nodes, this`cache, node`head, node`tail, nodes`head
      ensures Valid() && Holds([Item(node.key, node.val)] + items) && nodes == [node] + old(nodes)
    {
      hide Linked, Mapped, Holds;
      LinkMapped(node, items);
    }

    /** A full cache: the node of the evicted key is used again. */
    method Replace(key: int, val: int, ghost items: seq<Item>)
      requires Valid() && Holds(items) && key !in cache && |cache| >= capacity
      modifies this`head, this`tail, this`nodes, this`cache, nodes
      ensures Valid() && Holds([Item(key, val)] + items[..|items| - 1])
      ensures forall x :: x in nodes ==> x in old(nodes)
    {
      hide Linked, Mapped, Holds;
      Sizes(items);
      var tmp := Evict(items);
      Refill(tmp, key, val, items[..|items| - 1]);
      InsertNew(tmp, items[..|items| - 1]);
    }

    /** Writing to a node outside the list. */
    method Refill(node: ListNode, key: int, val: int, ghost items: seq<Item>)
      requires Linked() && Mapped() && Holds(items) && node !in nodes
      modifies node`key, node`val
      ensures Linked() && Mapped() && Holds(items) && node.key == key && node.val == val
    {
      node.key := key;
      node.val := val;
    }

    method InsertAbsent(key: int, val: int, ghost items: seq<Item>)
      requires Valid() && Holds(items) && key !in cache
      modifies this`head, this`tail, this`nodes, this`cache, nodes
      ensures Valid() && Holds(PutItems(items, capacity, key, val))
      ensures forall x :: x in nodes ==> x in old(nodes) || (fresh(x) && |old(nodes)| < capacity)
    {
      hide Linked, Mapped, Holds;
      Absent(key, items);
      Sizes(items);
      if |cache| >= capacity {
        Replace(key, val, items);
      } else {
        var tmp := new ListNode(key, val);
        InsertNew(tmp, items);
      }
    }

    method Put(key: int, val: int)
      requires Valid()
      modifies this`head, this`tail, this`nodes, this`cache, nodes
      ensures Valid() && Items() == PutItems(old(Items()), capacity, key, val)
      ensures forall x :: x in nodes ==> x in old(nodes) || (fresh(x) && |old(nodes)| < capacity)
    {
      ghost var items := Items();
      if key in cache {
        Touch(key, items);
      } else {
        InsertAbsent(key, val, items);
      }
      HoldsItems(PutItems(items, capacity, key, val));
    }
  }
}
