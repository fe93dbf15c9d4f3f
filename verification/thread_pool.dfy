/** The regions of the thread pool that hold the lock, on its own fields. */
module ThreadPools {
  import opened TaskLists

  lemma {:induction false} EraseKeepsOthers(list: seq<Node>, id: nat, other: nat)
    requires other in Ids(list) && other != id
    ensures other in Ids(Erase(list, id))
  {
    if list[0].id != id && list[0].id != other {
      EraseKeepsOthers(list[1..], id, other);
    }
  }

  lemma {:induction false} OfFdDistinct(list: seq<Node>, fd: int, bound: nat)
    requires Increasing(list, bound)
    ensures forall i, j :: 0 <= i < j < |OfFd(list, fd)| ==> OfFd(list, fd)[i] != OfFd(list, fd)[j]
    ensures forall id :: id in OfFd(list, fd) ==> id in Ids(list)
  {
    if list != [] {
      IncreasingTail(list, bound);
      OfFdDistinct(list[1..], fd, bound);
      var rest := OfFd(list[1..], fd);
      forall id | id in rest ensures id != list[0].id {
        IdsAreMembers(list[1..], fd, id);
        var i :| 0 <= i < |list[1..]| && list[1..][i] == Node(id, fd);
        assert list[1..][i] in list[1..];
      }
      assert forall k :: 0 <= k < |rest| ==> rest[k] in rest;
    }
  }

  class ThreadPool {
    var tasks: seq<Node>
    var fdTaskMap: map<int, seq<nat>>
    ghost var accepted: nat

    ghost function Contents(): Tasks
      reads this
    {
      Tasks(tasks, fdTaskMap, accepted)
    }

    constructor ()
      ensures Contents() == Tasks([], map[], 0) && Agrees(Contents())
    {
      tasks, fdTaskMap, accepted := [], map[], 0;
    }

    /** AddTask under the lock; `id` is the new node. */
    method AddTask(fd: int, id: nat)
      requires Agrees(Contents()) && id == accepted
      modifies this
      ensures Contents() == Enqueue(old(Contents()), fd) && Agrees(Contents())
    {
      EnqueueAgrees(Contents(), fd);
      tasks := tasks + [Node(id, fd)];
      var queued := if fd in fdTaskMap then fdTaskMap[fd] else [];
      fdTaskMap := fdTaskMap[fd := queued + [tasks[|tasks| - 1].id]];
      accepted := accepted + 1;
    }

    /** list::erase, which needs an iterator to a node that is still in the list. */
    method EraseNode(id: nat)
      requires id in Ids(tasks)
      modifies this`tasks
      ensures tasks == Erase(old(tasks), id)
    {
      tasks := Erase(tasks, id);
    }

    /** Every iterator erased is valid, and exactly the tasks of the descriptor go. */
    method DelCloseFD(fd: int)
      requires Agrees(Contents())
      modifies this
      ensures Contents() == Cancel(old(Contents()), fd) && Agrees(Contents())
      ensures tasks == Others(old(tasks), fd)
    {
      CancelAgrees(Contents(), fd);
      if fd in fdTaskMap {
        var items := fdTaskMap[fd];
        assert Contents().Indexed(fd) == OfFd(tasks, fd);
        OfFdDistinct(tasks, fd, accepted);
        var i := 0;
        while i < |items|
          invariant 0 <= i <= |items|
          invariant fdTaskMap == old(fdTaskMap) && accepted == old(accepted)
          invariant EraseAll(old(tasks), items) == EraseAll(tasks, items[i..])
          invariant forall j :: i <= j < |items| ==> items[j] in Ids(tasks)
        {
          forall j | i < j < |items| ensures items[j] in Ids(Erase(tasks, items[i])) {
            EraseKeepsOthers(tasks, items[i], items[j]);
          }
          EraseNode(items[i]);
          i := i + 1;
        }
        fdTaskMap := fdTaskMap - {fd};
      }
    }

    /** A worker dequeues: the two pop_front calls remove the same node. */
    method TakeTask() returns (task: Node)
      requires Agrees(Contents()) && tasks != []
      modifies this
      ensures task == old(tasks)[0] && Contents() == Take(old(Contents())) && Agrees(Contents())
    {
      TakeAgrees(Contents());
      task := tasks[0];
      assert Contents().Indexed(task.fd)[0] == task.id;
      var queued := fdTaskMap[task.fd];
      fdTaskMap := fdTaskMap[task.fd := queued[1..]];
      tasks := tasks[1..];
    }
  }
}
