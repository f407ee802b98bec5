/** `TaskQueue<T>`: a FIFO of pending tasks, the set of IDs of the tasks that
    are running, and a cap on how many may run at once. */
module QueueManager {
  import opened Wrappers

  /** Rust's `u32`. */
  newtype u32 = x: int | 0 <= x < 0x1_0000_0000

  class TaskQueue<T> {
    var queue: seq<T>
    var processingStarted: bool
    var maxConcurrentTasks: u32
    var activeTasks: set<string>

    /** No more tasks are active than the cap allows. */
    ghost predicate Valid()
      reads this
    {
      |activeTasks| <= maxConcurrentTasks as int
    }

    /** `TaskQueue::default()` */
    constructor Default()
      ensures Valid()
      ensures queue == [] && !processingStarted && maxConcurrentTasks == 1 && activeTasks == {}
    {
      queue := [];
      processingStarted := false;
      maxConcurrentTasks := 1;
      activeTasks := {};
    }

    /** `TaskQueue::new(max_concurrent_tasks)` */
    constructor (maxConcurrent: u32)
      ensures Valid()
      ensures queue == [] && !processingStarted && maxConcurrentTasks == maxConcurrent && activeTasks == {}
    {
      queue := [];
      processingStarted := false;
      maxConcurrentTasks := maxConcurrent;
      activeTasks := {};
    }

    /** `add_task`: the task goes to the back; nothing else changes. */
    method AddTask(task: T)
      requires Valid()
      modifies this`queue
      ensures Valid()
      ensures queue == old(queue) + [task]
    {
      queue := queue + [task];
    }

    /** `can_start_new_task` */
    predicate CanStartNewTask()
      reads this
    {
      |activeTasks| < maxConcurrentTasks as int
    }

    /** `take_next_task`: below the cap, the front task leaves the queue and its
        ID joins the active set; otherwise nothing happens. */
    method TakeNextTask(getTaskId: T -> string) returns (r: Option<T>)
      requires Valid()
      modifies this`queue, this`activeTasks
      ensures Valid()
      ensures !old(CanStartNewTask()) || old(queue) == [] ==>
                r == None && queue == old(queue) && activeTasks == old(activeTasks)
      ensures old(CanStartNewTask()) && old(queue) != [] ==>
                r == Some(old(queue)[0]) && queue == old(queue)[1..]
                && activeTasks == old(activeTasks) + {getTaskId(old(queue)[0])}
    {
      if CanStartNewTask() {
        if queue != [] {
          var task := queue[0];
          queue := queue[1..];
          activeTasks := activeTasks + {getTaskId(task)};
          r := Some(task);
        } else {
          r := None;
        }
      } else {
        r := None;
      }
    }

    /** `remove_active_task`: removing an absent ID changes nothing, so a
        second removal is a no-op. */
    method RemoveActiveTask(taskId: string)
      requires Valid()
      modifies this`activeTasks
      ensures Valid()
      ensures activeTasks == old(activeTasks) - {taskId}
      ensures taskId !in old(activeTasks) ==> activeTasks == old(activeTasks)
    {
      activeTasks := activeTasks - {taskId};
    }

    /** `is_empty`: no task waits and none runs. */
    function IsEmpty(): (b: bool)
      reads this
      ensures b <==> |queue| + |activeTasks| == 0
    {
      queue == [] && activeTasks == {}
    }

    /** `len`: (waiting, running). */
    function Len(): (r: (nat, nat))
      reads this
      ensures r.0 == 0 && r.1 == 0 <==> IsEmpty()
    {
      (|queue|, |activeTasks|)
    }
  }
}
