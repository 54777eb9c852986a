/**
The task pool of src/coroutine_task.c on the heap: a linked free list of task objects and a counter
of the tasks at work.  `NewTask` and `Release` are the two places where a task changes hands; the
user function runs between them.
 */
module TaskPool {
  import opened TaskStates

  class Task {
    var state: TaskState
    var next: Task?

    constructor (next: Task?)
      ensures state == TaskWaiting && this.next == next
    {
      state, this.next := TaskWaiting, next;
    }
  }

  /** Distinct elements of a set are no more than the set. */
  lemma {:induction false} WaitingFits(s: seq<Task>, all: set<Task>)
    requires forall t :: t in s ==> t in all
    requires forall i, j :: 0 <= i < j < |s| ==> s[i] != s[j]
    ensures |s| <= |all|
  {
    if s != [] {
      var last, rest := s[|s| - 1], s[..|s| - 1];
      forall t | t in rest ensures t in all - {last} {
        var i :| 0 <= i < |rest| && rest[i] == t;
        assert s[i] == t;
      }
      WaitingFits(rest, all - {last});
    }
  }

  class Pool {
    var free: Task?
    var working: int
    var size: int
    /** The tasks of the pool, and those on the free list from its head. */
    ghost var tasks: set<Task>
    ghost var waiting: seq<Task>

    ghost predicate Chained()
      reads this, waiting
    {
      && free == (if waiting == [] then null else waiting[0])
      && (forall i {:trigger waiting[i].next} :: 0 <= i < |waiting| ==>
            waiting[i].next == if i + 1 == |waiting| then null else waiting[i + 1])
      && (forall i, j :: 0 <= i < j < |waiting| ==> waiting[i] != waiting[j])
    }

    /** The free list is a chain without repetition that holds exactly the waiting tasks, and the
        counter is the number of the others. */
    ghost predicate Valid()
      reads this, tasks, waiting
    {
      && Chained()
      && (forall t :: t in waiting ==> t in tasks)
      && (forall t :: t in tasks ==> (t.state == TaskWaiting <==> t in waiting))
      && size == |tasks| && working + |waiting| == size
    }

    /** `create_thread_taskpool`: every task goes to the front of the free list. */
    constructor (count: nat)
      ensures Valid() && fresh(tasks) && size == count && working == 0
      ensures forall t :: t in tasks ==> t.state == TaskWaiting
    {
      free, working, size := null, 0, 0;
      tasks, waiting := {}, [];
      new;
      var i := 0;
      while i < count
        invariant 0 <= i <= count && |tasks| == |waiting| == i && working == 0
        invariant Chained() && fresh(tasks)
        invariant forall t :: t in tasks <==> t in waiting
        invariant forall t :: t in tasks ==> t.state == TaskWaiting
      {
        var task := new Task(free);
        free := task;
        waiting := [task] + waiting;
        tasks := tasks + {task};
        i := i + 1;
      }
      size := count;
    }

    /** `new_task`, and the counting of the task when its coroutine is resumed.  It fails exactly when
        no task is waiting; otherwise the task released last is the one handed out. */
    method NewTask() returns (ret: int, task: Task?)
      requires Valid()
      modifies this, waiting
      ensures Valid() && tasks == old(tasks) && size == old(size)
      ensures ret == -1 <==> forall t :: t in tasks ==> old(t.state) == TaskRunning
      ensures ret == -1 ==> task == null && waiting == old(waiting) && working == old(working)
      ensures ret != -1 ==>
                && ret == 0 && old(waiting) != [] && task == old(waiting[0]) && waiting == old(waiting[1..])
                && task.state == TaskRunning && working == old(working) + 1
      ensures forall t :: t in tasks && t != task ==> t.state == old(t.state)
    {
      if working == size {
        assert waiting == [];
        return -1, null;
      }
      if free == null {
        return -1, null;
      }
      task := free;
      free := task.next;
      task.next := null;
      task.state := TaskRunning;
      working := working + 1;
      waiting := waiting[1..];
      ret := 0;
    }

    /** The end of an iteration of `task_main`. */
    method Release(task: Task)
      requires Valid() && task in tasks && task.state == TaskRunning
      modifies this, task
      ensures Valid() && tasks == old(tasks) && size == old(size)
      ensures waiting == [task] + old(waiting) && working == old(working) - 1 && task.state == TaskWaiting
      ensures forall t :: t in tasks && t != task ==> t.state == old(t.state)
    {
      task.next := free;
      free := task;
      working := working - 1;
      task.state := TaskWaiting;
      waiting := [task] + waiting;
    }

    /** While a task is waiting neither failure test of `new_task` holds. */
    lemma FailureTestsAgree()
      requires Valid()
      ensures working == size <==> free == null
      ensures 0 <= working <= size
    {
      WaitingFits(waiting, tasks);
    }
  }
}
