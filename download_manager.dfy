/** The download queue and the extraction queue of `download_manager.rs`:
    two FIFO queues of their own, each with an active set capped at one task,
    changed in place by the worker loops. */
module DownloadManager {
  import opened Wrappers
  import opened Paths
  import opened QueueManager
  import ExtractManager
  import Text

  /** `DownloadTask` */
  datatype DownloadTask = DownloadTask(id: string, url: string, extractDir: string, filename: Option<string>)

  /** `ExtractTask` of this file (no archive name; the application handle is
      not modelled). */
  datatype ExtractTask = ExtractTask(id: string, filePath: string, extractDir: string, downloadTaskId: string)

  /** The marker whose presence means aria2 has not finished writing the archive. */
  function MarkerPath(filePath: string): string {
    SetExtension(filePath, "7z.aria2")
  }

  /** `DOWNLOAD_QUEUE` */
  class DownloadQueue {
    var queue: seq<DownloadTask>
    var processingStarted: bool
    var maxConcurrentTasks: u32
    var activeTasks: set<string>

    ghost predicate Valid()
      reads this
    {
      |activeTasks| <= maxConcurrentTasks as int
    }

    /** The static instance: empty, not started, one download at a time. */
    constructor ()
      ensures Valid()
      ensures queue == [] && !processingStarted && maxConcurrentTasks == 1 && activeTasks == {}
    {
      queue := [];
      processingStarted := false;
      maxConcurrentTasks := 1;
      activeTasks := {};
    }

    /** The take step of `process_download_queue`: below the cap, the front
        task is popped and its ID becomes active. */
    method TakeNextDownload() returns (r: Option<DownloadTask>)
      requires Valid()
      modifies this`queue, this`activeTasks
      ensures Valid()
      ensures |old(activeTasks)| >= maxConcurrentTasks as int || old(queue) == [] ==>
                r == None && queue == old(queue) && activeTasks == old(activeTasks)
      ensures |old(activeTasks)| < maxConcurrentTasks as int && old(queue) != [] ==>
                r == Some(old(queue)[0]) && queue == old(queue)[1..] && activeTasks == old(activeTasks) + {old(queue)[0].id}
    {
      if |activeTasks| < maxConcurrentTasks as int && queue != [] {
        var task := queue[0];
        queue := queue[1..];
        activeTasks := activeTasks + {task.id};
        r := Some(task);
      } else {
        r := None;
      }
    }

    /** After `download_and_extract` returns, successful or not, the task
        leaves the active set; the queue is untouched. */
    method FinishDownload(task: DownloadTask, outcome: Result<string, string>)
      requires Valid()
      modifies this`activeTasks
      ensures Valid()
      ensures activeTasks == old(activeTasks) - {task.id}
    {
      activeTasks := activeTasks - {task.id};
    }
  }

  /** `Iterator::position` over the extraction queue: the first task whose
      marker file does not exist. */
  method FirstWithoutMarker(tasks: seq<ExtractTask>, markerExists: string -> bool) returns (index: Option<nat>)
    ensures index.Some? ==> index.value < |tasks| && !markerExists(MarkerPath(tasks[index.value].filePath))
    ensures index.Some? ==> forall j :: 0 <= j < index.value ==> markerExists(MarkerPath(tasks[j].filePath))
    ensures index.None? ==> forall j :: 0 <= j < |tasks| ==> markerExists(MarkerPath(tasks[j].filePath))
  {
    var i := 0;
    while i < |tasks|
      invariant 0 <= i <= |tasks|
      invariant forall j :: 0 <= j < i ==> markerExists(MarkerPath(tasks[j].filePath))
    {
      if !markerExists(MarkerPath(tasks[i].filePath)) {
        return Some(i);
      }
      i := i + 1;
    }
    return None;
  }

  /** The task still has an aria2 control file beside it. */
  predicate HasMarker(task: ExtractTask, markerExists: string -> bool) {
    markerExists(MarkerPath(task.filePath))
  }

  /** The first task without a marker. */
  function FirstAbsent(tasks: seq<ExtractTask>, markerExists: string -> bool): (r: Option<nat>)
    ensures r.Some? ==> r.value < |tasks| && !HasMarker(tasks[r.value], markerExists)
    ensures r.Some? ==> forall j :: 0 <= j < r.value ==> HasMarker(tasks[j], markerExists)
    ensures r.None? ==> forall j :: 0 <= j < |tasks| ==> HasMarker(tasks[j], markerExists)
  {
    FirstFailingFrom(tasks, t => HasMarker(t, markerExists), 0)
  }

  /** The first element at or after `from` that fails `holds`. */
  function FirstFailingFrom<T>(s: seq<T>, holds: T -> bool, from: nat): (r: Option<nat>)
    requires from <= |s|
    ensures r.Some? ==> from <= r.value < |s| && !holds(s[r.value])
    ensures r.Some? ==> forall j :: from <= j < r.value ==> holds(s[j])
    ensures r.None? ==> forall j :: from <= j < |s| ==> holds(s[j])
    decreases |s| - from
  {
    if from == |s| then None
    else if !holds(s[from]) then Some(from)
    else FirstFailingFrom(s, holds, from + 1)
  }

  /** The index the selection step takes from a non-empty queue: the first
      task without a marker, or the front when every task has one. */
  function SelectionIndex(tasks: seq<ExtractTask>, markerExists: string -> bool): (i: nat)
    requires tasks != []
    ensures i < |tasks|
  {
    match FirstAbsent(tasks, markerExists)
    case Some(i) => i
    case None => 0
  }

  /** `EXTRACT_QUEUE` */
  class ExtractQueue {
    var queue: seq<ExtractTask>
    var processingStarted: bool
    var maxConcurrentTasks: u32
    var activeTasks: set<string>

    ghost predicate Valid()
      reads this
    {
      |activeTasks| <= maxConcurrentTasks as int
    }

    /** The static instance: empty, not started, one extraction at a time. */
    constructor ()
      ensures Valid()
      ensures queue == [] && !processingStarted && maxConcurrentTasks == 1 && activeTasks == {}
    {
      queue := [];
      processingStarted := false;
      maxConcurrentTasks := 1;
      activeTasks := {};
    }

    /** The queue part of `download_and_extract`: `download` is what
        `download_via_aria2` returned and `newId` the UUID of the extraction
        task. A failed download enqueues nothing and passes its error on; a
        finished one appends exactly one extraction task at the back. */
    method DownloadAndExtract(download: Result<string, string>, extractDir: string, taskId: string, newId: string)
      returns (r: Result<string, string>)
      requires Valid()
      modifies this`queue
      ensures Valid()
      ensures download.Err? ==> r == download && queue == old(queue)
      ensures download.Ok? ==>
                queue == old(queue) + [ExtractTask(newId, download.value, extractDir, taskId)]
                && r == Ok("文件下载成功，解压将在后台进行: " + download.value)
    {
      match download
      case Err(e) =>
        r := Err(e);
      case Ok(filePath) =>
        queue := queue + [ExtractTask(newId, filePath, extractDir, taskId)];
        r := Ok("文件下载成功，解压将在后台进行: " + filePath);
    }

    /** The selection step of `process_extract_queue`: below the cap, the
        first task whose marker is absent is removed from wherever it stands;
        when every task still has a marker, the front one is taken. The task's
        ID becomes active. */
    method TakeNextExtraction(markerExists: string -> bool) returns (r: Option<ExtractTask>)
      requires Valid()
      modifies this`queue, this`activeTasks
      ensures Valid()
      ensures |old(activeTasks)| >= maxConcurrentTasks as int || old(queue) == [] ==>
                r == None && queue == old(queue) && activeTasks == old(activeTasks)
      ensures |old(activeTasks)| < maxConcurrentTasks as int && old(queue) != [] ==>
                var i := SelectionIndex(old(queue), markerExists);
                r == Some(old(queue)[i]) && queue == old(queue)[..i] + old(queue)[i + 1..]
                && activeTasks == old(activeTasks) + {old(queue)[i].id}
    {
      if |activeTasks| < maxConcurrentTasks as int && queue != [] {
        var found := FirstWithoutMarker(queue, markerExists);
        var i := if found.Some? then found.value else 0;
        assert i == SelectionIndex(queue, markerExists);
        var task := queue[i];
        queue := queue[..i] + queue[i + 1..];
        activeTasks := activeTasks + {task.id};
        r := Some(task);
      } else {
        r := None;
      }
    }

    /** The end of an extraction task: the shared retry, message and cleanup
        decision, then the task leaves the active set on success and failure. */
    method FinishExtractTask(task: ExtractTask, attempt: nat -> Result<string, string>)
      returns (success: bool, message: string, deleteArchive: bool)
      requires Valid()
      modifies this`activeTasks
      ensures Valid()
      ensures activeTasks == old(activeTasks) - {task.id}
      ensures deleteArchive == success
      ensures !success ==> (forall k :: 0 <= k <= ExtractManager.MaxRetryCount ==> attempt(k).Err?)
                           && message == ExtractManager.FailurePrefix + attempt(ExtractManager.MaxRetryCount).error
      ensures success && attempt(0).Ok? ==> message == attempt(0).value
      ensures success && attempt(0).Err? ==>
                exists k :: 1 <= k <= ExtractManager.MaxRetryCount && attempt(k).Ok?
                            && (forall j :: 0 <= j < k ==> attempt(j).Err?)
                            && message == attempt(k).value + " (重试了" + Text.DecimalString(k) + "次)"
    {
      success, message, deleteArchive := ExtractManager.FinishExtraction(attempt);
      activeTasks := activeTasks - {task.id};
    }
  }
}
