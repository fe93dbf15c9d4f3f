/** The task list of the thread pool and its index by file descriptor, as the code under the lock changes them. */
module TaskLists {

  /** A node of the task list; its id stands for the node itself, which is what an iterator refers to. */
  datatype Node = Node(id: nat, fd: int)

  datatype Tasks = Tasks(list: seq<Node>, index: map<int, seq<nat>>, accepted: nat) {
    function Indexed(fd: int): seq<nat> {
      if fd in index then index[fd] else []
    }
  }

  // ---------- Views of the list ----------

  function Ids(list: seq<Node>): seq<nat> {
    if list == [] then [] else [list[0].id] + Ids(list[1..])
  }

  /** The nodes of one descriptor, in queue order. */
  function OfFd(list: seq<Node>, fd: int): seq<nat> {
    if list == [] then []
    else if list[0].fd == fd then [list[0].id] + OfFd(list[1..], fd)
    else OfFd(list[1..], fd)
  }

  function Others(list: seq<Node>, fd: int): seq<Node> {
    if list == [] then []
    else if list[0].fd != fd then [list[0]] + Others(list[1..], fd)
    else Others(list[1..], fd)
  }

  ghost predicate Increasing(list: seq<Node>, bound: nat) {
    && (forall i :: 0 <= i < |list| ==> list[i].id < bound)
    && (forall i, j :: 0 <= i < j < |list| ==> list[i].id < list[j].id)
  }

  /** The index lists, for every descriptor, exactly its queued nodes in queue order. */
  ghost predicate Agrees(t: Tasks) {
    Increasing(t.list, t.accepted) && forall fd :: t.Indexed(fd) == OfFd(t.list, fd)
  }

  // ---------- The operations ----------

  function Erase(list: seq<Node>, id: nat): seq<Node> {
    if list == [] then [] else if list[0].id == id then list[1..] else [list[0]] + Erase(list[1..], id)
  }

  function EraseAll(list: seq<Node>, ids: seq<nat>): seq<Node>
    decreases |ids|
  {
    if ids == [] then list else EraseAll(Erase(list, ids[0]), ids[1..])
  }

  function Enqueue(t: Tasks, fd: int): Tasks {
    Tasks(t.list + [Node(t.accepted, fd)], t.index[fd := t.Indexed(fd) + [t.accepted]], t.accepted + 1)
  }

  /** delCloseFD: every iterator of the descriptor is erased from the list, then the descriptor from the index. */
  function Cancel(t: Tasks, fd: int): Tasks {
    if fd in t.index then Tasks(EraseAll(t.list, t.index[fd]), t.index - {fd}, t.accepted) else t
  }

  /** A worker takes the front of the list and the front of the index list of its descriptor. */
  function Take(t: Tasks): Tasks
    requires t.list != [] && t.Indexed(t.list[0].fd) != []
  {
    var fd := t.list[0].fd;
    Tasks(t.list[1..], t.index[fd := t.Indexed(fd)[1..]], t.accepted)
  }

  // ---------- The index keeps agreeing ----------

  lemma {:induction false} ViewsAppend(a: seq<Node>, b: seq<Node>, fd: int)
    ensures Ids(a + b) == Ids(a) + Ids(b)
    ensures OfFd(a + b, fd) == OfFd(a, fd) + OfFd(b, fd)
  {
    if a == [] {
      assert a + b == b;
    } else {
      assert (a + b)[0] == a[0] && (a + b)[1..] == a[1..] + b;
      ViewsAppend(a[1..], b, fd);
    }
  }

  lemma {:induction false} SnocViews(list: seq<Node>, n: Node, fd: int)
    ensures Ids(list + [n]) == Ids(list) + [n.id]
    ensures OfFd(list + [n], fd) == OfFd(list, fd) + if n.fd == fd then [n.id] else []
  {
    ViewsAppend(list, [n], fd);
    assert [n][1..] == [];
  }

  lemma {:induction false} EnqueueAgrees(t: Tasks, fd: int)
    requires Agrees(t)
    ensures Agrees(Enqueue(t, fd))
    ensures Ids(Enqueue(t, fd).list) == Ids(t.list) + [t.accepted]
  {
    var r := Enqueue(t, fd);
    SnocViews(t.list, Node(t.accepted, fd), fd);
    assert Increasing(r.list, r.accepted);
    forall other ensures r.Indexed(other) == OfFd(r.list, other) {
      SnocViews(t.list, Node(t.accepted, fd), other);
      assert t.Indexed(other) == OfFd(t.list, other);
    }
  }

  /** Both pop_front calls remove the same node: the front of the index list is the front of the queue. */
  lemma {:induction false} TakeAgrees(t: Tasks)
    requires Agrees(t) && t.list != []
    ensures t.Indexed(t.list[0].fd) != [] && t.Indexed(t.list[0].fd)[0] == t.list[0].id
    ensures Agrees(Take(t))
    ensures Ids(t.list) == [t.list[0].id] + Ids(Take(t).list)
  {
    var fd := t.list[0].fd;
    assert t.Indexed(fd) == OfFd(t.list, fd) == [t.list[0].id] + OfFd(t.list[1..], fd);
    var r := Take(t);
    forall other ensures r.Indexed(other) == OfFd(r.list, other) {
      assert t.Indexed(other) == OfFd(t.list, other);
    }
  }

  lemma {:induction false} IdsAreMembers(list: seq<Node>, fd: int, id: nat)
    ensures id in Ids(list) <==> exists i :: 0 <= i < |list| && list[i].id == id
    ensures id in OfFd(list, fd) <==> exists i :: 0 <= i < |list| && list[i] == Node(id, fd)
  {
    if list != [] {
      IdsAreMembers(list[1..], fd, id);
      assert forall i :: 1 <= i < |list| ==> list[i] == list[1..][i - 1];
      assert forall i :: 0 <= i < |list| - 1 ==> list[1..][i] == list[i + 1];
    }
  }

  lemma {:induction false} EraseAllSkips(list: seq<Node>, ids: seq<nat>)
    requires list != [] && list[0].id !in ids
    ensures EraseAll(list, ids) == [list[0]] + EraseAll(list[1..], ids)
    decreases |ids|
  {
    if ids != [] {
      var erased := Erase(list, ids[0]);
      assert ids[0] in ids;
      assert erased[0] == list[0] && erased[1..] == Erase(list[1..], ids[0]);
      EraseAllSkips(erased, ids[1..]);
    }
  }

  /** Erasing the indexed iterators of a descriptor leaves exactly the nodes of the others, in order. */
  lemma {:induction false} EraseAllIsOthers(list: seq<Node>, fd: int, bound: nat)
    requires Increasing(list, bound)
    ensures EraseAll(list, OfFd(list, fd)) == Others(list, fd)
  {
    if list != [] {
      var rest := OfFd(list[1..], fd);
      EraseAllIsOthers(list[1..], fd, bound);
      if list[0].fd == fd {
        assert OfFd(list, fd)[1..] == rest;
      } else {
        forall id | id in rest ensures id != list[0].id {
          IdsAreMembers(list[1..], fd, id);
          var i :| 0 <= i < |list[1..]| && list[1..][i] == Node(id, fd);
          assert list[i + 1].id == id;
        }
        assert OfFd(list, fd) == rest;
        EraseAllSkips(list, rest);
      }
    }
  }

  lemma {:induction false} OthersOfFd(list: seq<Node>, fd: int, other: int)
    ensures OfFd(Others(list, fd), other) == if other == fd then [] else OfFd(list, other)
  {
    if list != [] {
      OthersOfFd(list[1..], fd, other);
      assert list[0].fd != fd ==> Others(list, fd)[1..] == Others(list[1..], fd);
    }
  }

  lemma {:induction false} OthersMembers(list: seq<Node>, fd: int)
    ensures forall n :: n in Others(list, fd) <==> n in list && n.fd != fd
  {
    if list != [] {
      OthersMembers(list[1..], fd);
      assert list == [list[0]] + list[1..];
    }
  }

  lemma {:induction false} IncreasingTail(list: seq<Node>, bound: nat)
    requires Increasing(list, bound) && list != []
    ensures Increasing(list[1..], bound) && forall n :: n in list[1..] ==> list[0].id < n.id
  {
  }

  lemma {:induction false} IncreasingCons(first: Node, rest: seq<Node>, bound: nat)
    requires Increasing(rest, bound) && first.id < bound && forall n :: n in rest ==> first.id < n.id
    ensures Increasing([first] + rest, bound)
  {
    assert forall i :: 0 <= i < |rest| ==> rest[i] in rest;
  }

  lemma {:induction false} OthersIncreasing(list: seq<Node>, fd: int, bound: nat)
    requires Increasing(list, bound)
    ensures Increasing(Others(list, fd), bound)
  {
    if list != [] {
      IncreasingTail(list, bound);
      OthersIncreasing(list[1..], fd, bound);
      OthersMembers(list[1..], fd);
      IncreasingCons(list[0], Others(list[1..], fd), bound);
    }
  }

  /** delCloseFD removes exactly the tasks of that descriptor. */
  lemma {:induction false} CancelAgrees(t: Tasks, fd: int)
    requires Agrees(t)
    ensures Agrees(Cancel(t, fd)) && Cancel(t, fd).list == Others(t.list, fd)
  {
    var r := Cancel(t, fd);
    EraseAllIsOthers(t.list, fd, t.accepted);
    assert t.Indexed(fd) == OfFd(t.list, fd);
    if fd !in t.index { NothingIndexed(t.list, fd); }
    OthersIncreasing(t.list, fd, t.accepted);
    forall other ensures r.Indexed(other) == OfFd(r.list, other) {
      OthersOfFd(t.list, fd, other);
      assert other != fd ==> r.Indexed(other) == t.Indexed(other);
    }
  }

  lemma {:induction false} NothingIndexed(list: seq<Node>, fd: int)
    requires OfFd(list, fd) == []
    ensures Others(list, fd) == list
  {
    if list != [] { NothingIndexed(list[1..], fd); }
  }
}
