/** The extraction side of the pipeline: one `extract_with_7zip` run as a
    chain of guarded steps over the file system's answers, the bounded retry
    around it, the message the user sees, and the bookkeeping on the shared
    extraction queue. */
module ExtractManager {
  import opened Wrappers
  import opened Text
  import opened Paths
  import opened QueueManager

  /** `ExtractTask` (the application handle is not modelled). */
  datatype ExtractTask = ExtractTask(
    id: string,
    filePath: string,
    extractDir: string,
    downloadTaskId: string,
    archiveName: string)

  /** `EXTRACT_MANAGER` runs one extraction at a time. */
  const ExtractManagerCap: u32 := 1

  /** `MAX_RETRY_COUNT` */
  const MaxRetryCount: nat := 3

  const FailurePrefix: string := "解压失败（已尝试3次）: "

  // ---------------------------------------------------------------------
  // Retry and message

  /** The retry loop: `attempt(k)` is what the k-th call of `extract_with_7zip`
      returns (k = 0 is the first call). The loop stops at the first success
      or after three retries; retry k is preceded by a pause of 2k seconds. */
  method ExtractWithRetries(attempt: nat -> Result<string, string>)
    returns (result: Result<string, string>, retryCount: nat, pauses: seq<nat>)
    ensures retryCount <= MaxRetryCount
    ensures result == attempt(retryCount)
    ensures forall k :: 0 <= k < retryCount ==> attempt(k).Err?
    ensures result.Err? ==> retryCount == MaxRetryCount
    ensures |pauses| == retryCount
    ensures forall k :: 0 <= k < |pauses| ==> pauses[k] == 2 * (k + 1)
  {
    retryCount := 0;
    result := attempt(0);
    pauses := [];
    while result.Err? && retryCount < MaxRetryCount
      invariant retryCount <= MaxRetryCount
      invariant result == attempt(retryCount)
      invariant forall k :: 0 <= k < retryCount ==> attempt(k).Err?
      invariant |pauses| == retryCount
      invariant forall k :: 0 <= k < |pauses| ==> pauses[k] == 2 * (k + 1)
    {
      retryCount := retryCount + 1;
      pauses := pauses + [2 * retryCount];
      result := attempt(retryCount);
    }
  }

  /** The message built from the final result and the number of retries. */
  function ExtractMessage(result: Result<string, string>, retryCount: nat): string {
    match result
    case Ok(msg) => if retryCount > 0 then msg + " (重试了" + DecimalString(retryCount) + "次)" else msg
    case Err(e) => if retryCount >= MaxRetryCount then FailurePrefix + e else e
  }

  /** Retry, then the message and whether the archive is deleted: a final
      failure always reports three attempts and keeps the archive; a success
      deletes it and mentions the retries it needed, if any. */
  method FinishExtraction(attempt: nat -> Result<string, string>)
    returns (success: bool, message: string, deleteArchive: bool)
    ensures deleteArchive == success
    ensures !success ==> (forall k :: 0 <= k <= MaxRetryCount ==> attempt(k).Err?)
                         && message == FailurePrefix + attempt(MaxRetryCount).error
    ensures success && attempt(0).Ok? ==> message == attempt(0).value
    ensures success && attempt(0).Err? ==>
              exists k :: 1 <= k <= MaxRetryCount && attempt(k).Ok?
                          && (forall j :: 0 <= j < k ==> attempt(j).Err?)
                          && message == attempt(k).value + " (重试了" + DecimalString(k) + "次)"
  {
    var result, retryCount, pauses := ExtractWithRetries(attempt);
    success := result.Ok?;
    message := ExtractMessage(result, retryCount);
    deleteArchive := result.Ok?;
    if success && attempt(0).Err? {
      assert retryCount != 0;
    }
  }

  /** The body of the task handler given to `EXTRACT_MANAGER`: extract with
      retries, then take the task out of the active set whatever happened. */
  method ProcessExtractTask(q: TaskQueue<ExtractTask>, task: ExtractTask, attempt: nat -> Result<string, string>)
    returns (success: bool, message: string, deleteArchive: bool)
    requires q.Valid()
    modifies q`activeTasks
    ensures q.Valid()
    ensures q.activeTasks == old(q.activeTasks) - {task.id}
    ensures deleteArchive == success
    ensures !success ==> (forall k :: 0 <= k <= MaxRetryCount ==> attempt(k).Err?)
                         && message == FailurePrefix + attempt(MaxRetryCount).error
    ensures success && attempt(0).Ok? ==> message == attempt(0).value
    ensures success && attempt(0).Err? ==>
              exists k :: 1 <= k <= MaxRetryCount && attempt(k).Ok?
                          && (forall j :: 0 <= j < k ==> attempt(j).Err?)
                          && message == attempt(k).value + " (重试了" + DecimalString(k) + "次)"
  {
    success, message, deleteArchive := FinishExtraction(attempt);
    q.RemoveActiveTask(task.id);
  }

  // ---------------------------------------------------------------------
  // Embedded 7-Zip resources

  /** `check_7z_resources_exist`: all three embedded files are in place. */
  predicate ResourcesExist(binDir: string, isFile: string -> bool) {
    isFile(Join(binDir, "7zG.exe")) && isFile(Join(binDir, "7z.dll"))
    && isFile(Join(Join(binDir, "Lang"), "zh-cn.txt"))
  }

  /** What the file system answers while the resources are written out: the
      error of each step, if it fails. */
  datatype ReleaseSteps = ReleaseSteps(
    createLangDir: Option<string>,
    writeExe: Option<string>,
    writeDll: Option<string>,
    writeLang: Option<string>)

  /** `release_7z_resources`: nothing is written when the files are already
      there; otherwise the language directory and the three files are written
      in order and the first failure is the error. */
  function Release7zResources(binDir: Option<string>, isFile: string -> bool, steps: ReleaseSteps)
    : (r: Result<string, string>)
    ensures r.Ok? ==> binDir.Some? && r.value == Join(binDir.value, "7zG.exe")
    ensures binDir.Some? && ResourcesExist(binDir.value, isFile) ==> r.Ok?
    ensures binDir.None? ==> r == Err("目录管理器未初始化")
  {
    match binDir
    case None => Err("目录管理器未初始化")
    case Some(bin) =>
      if ResourcesExist(bin, isFile) then Ok(Join(bin, "7zG.exe"))
      else if steps.createLangDir.Some? then Err("无法创建Lang目录: " + steps.createLangDir.value)
      else if steps.writeExe.Some? then Err("无法写入7zG.exe到二进制目录: " + steps.writeExe.value)
      else if steps.writeDll.Some? then Err("无法写入7z.dll到二进制目录: " + steps.writeDll.value)
      else if steps.writeLang.Some? then Err("无法写入zh-cn.txt到二进制目录: " + steps.writeLang.value)
      else Ok(Join(bin, "7zG.exe"))
  }

  // ---------------------------------------------------------------------
  // One extraction

  /** The answers `extract_with_7zip` receives from the file system and from
      the 7zG.exe process, in the order it asks for them. */
  datatype SevenZipEnv = SevenZipEnv(
    fileExists: bool,
    fileSize: Result<nat, string>,    // `metadata().len()` or its error
    header: seq<int>,                 // the bytes read for the magic-number check
    mapsDirExists: bool,
    createMapsDir: Option<string>,    // error of `create_dir_all(maps_dir)`
    targetExists: bool,
    removeTarget: Option<string>,     // error of `remove_dir_all(target)`
    createTarget: Option<string>,     // error of `create_dir_all(target)`
    release: Result<string, string>,  // `release_7z_resources()`
    spawn: Option<string>,            // error of `spawn()`
    wait: Result<bool, string>,       // exit status is success, or the wait error
    entries: Result<nat, string>)     // `read_dir(target).count()` or its error

  /** What one run did: its result, whether the extractor process ran,
      whether an old target directory was deleted before, and whether the
      target directory was deleted after a failure. */
  datatype SevenZipRun = SevenZipRun(result: Result<string, string>, ran: bool, clearedOld: bool, cleanedUp: bool)

  /** The 7z signature `37 7A` in the first two bytes read. */
  predicate HasSevenZipMagic(header: seq<int>) {
    |header| >= 6 && header[0] == 0x37 && header[1] == 0x7A
  }

  /** The archive passed the checks that come before any directory work. */
  predicate PassesFileChecks(env: SevenZipEnv) {
    env.fileExists && env.fileSize.Ok? && env.fileSize.value >= 1
  }

  /** Every step before the extractor is spawned succeeded. */
  predicate ReachesSpawn(env: SevenZipEnv) {
    PassesFileChecks(env)
    && (env.mapsDirExists || env.createMapsDir.None?)
    && (!env.targetExists || env.removeTarget.None?)
    && env.createTarget.None? && env.release.Ok? && env.spawn.None?
  }

  /** `extract_with_7zip(file_path, extract_dir, archive_name, task_id)`.
      The captured output in the failure message is empty, because the
      process's stdout and stderr pipes are taken for logging before
      `wait_with_output` collects them. */
  function ExtractWith7zip(filePath: string, extractDir: string, archiveName: string, env: SevenZipEnv)
    : (run: SevenZipRun)
    ensures run.ran <==> ReachesSpawn(env)
    ensures run.result.Ok? <==> ReachesSpawn(env) && env.wait == Ok(true) && env.entries.Ok? && env.entries.value > 0
    ensures run.cleanedUp <==> ReachesSpawn(env) && env.wait.Ok? && (!env.wait.value || env.entries == Ok(0))
    ensures run.clearedOld <==> PassesFileChecks(env) && (env.mapsDirExists || env.createMapsDir.None?)
                                && env.targetExists && env.removeTarget.None?
    ensures run.result.Ok? ==>
              run.result.value == "解压成功: " + filePath + " 文件已解压到 " + Join(extractDir, archiveName)
                                  + "，共解压 " + DecimalString(env.entries.value) + " 个文件"
  {
    var target := Join(extractDir, archiveName);
    if !env.fileExists then SevenZipRun(Err("文件不存在: " + filePath), false, false, false)
    else if env.fileSize.Err? then SevenZipRun(Err("获取文件大小失败: " + env.fileSize.error), false, false, false)
    else if env.fileSize.value < 1 then SevenZipRun(Err("解压失败: 文件大小过小，可能已损坏"), false, false, false)
    // the magic-number check only logs: `env.header` decides nothing
    else if !env.mapsDirExists && env.createMapsDir.Some? then
      SevenZipRun(Err("创建maps目录失败: " + env.createMapsDir.value), false, false, false)
    else if env.targetExists && env.removeTarget.Some? then
      SevenZipRun(Err("删除已存在的目标目录失败: " + env.removeTarget.value), false, false, false)
    else
      var cleared := env.targetExists;
      if env.createTarget.Some? then SevenZipRun(Err("创建目标解压目录失败: " + env.createTarget.value), false, cleared, false)
      else if env.release.Err? then SevenZipRun(Err(env.release.error), false, cleared, false)
      else if env.spawn.Some? then SevenZipRun(Err("无法启动7zG.exe进程: " + env.spawn.value), false, cleared, false)
      else if env.wait.Err? then SevenZipRun(Err("等待7zG.exe进程结束时出错: " + env.wait.error), true, cleared, false)
      else if env.wait.value then
        match env.entries
        case Err(e) => SevenZipRun(Err("读取解压目录失败: " + e), true, cleared, false)
        case Ok(n) =>
          if n > 0 then
            SevenZipRun(Ok("解压成功: " + filePath + " 文件已解压到 " + target + "，共解压 " + DecimalString(n) + " 个文件"),
                        true, cleared, false)
          else SevenZipRun(Err("解压失败: 解压目录为空，可能文件格式不支持"), true, cleared, true)
      else SevenZipRun(Err("解压失败: " + "" + "\n\n详细信息:\n" + ""), true, cleared, true)
  }

  /** A missing archive, an unreadable size or an empty archive fails before
      anything is created, deleted or run, with the message for that check. */
  lemma RejectedBeforeExtraction(filePath: string, extractDir: string, archiveName: string, env: SevenZipEnv)
    requires !PassesFileChecks(env)
    ensures var run := ExtractWith7zip(filePath, extractDir, archiveName, env);
            run.result.Err? && !run.ran && !run.clearedOld && !run.cleanedUp
    ensures !env.fileExists ==>
              ExtractWith7zip(filePath, extractDir, archiveName, env).result == Err("文件不存在: " + filePath)
    ensures env.fileExists && env.fileSize == Ok(0) ==>
              ExtractWith7zip(filePath, extractDir, archiveName, env).result == Err("解压失败: 文件大小过小，可能已损坏")
  {
  }

  /** The magic-number check never changes the outcome. */
  lemma MagicNumberOnlyLogged(filePath: string, extractDir: string, archiveName: string, env: SevenZipEnv, header: seq<int>)
    ensures ExtractWith7zip(filePath, extractDir, archiveName, env.(header := header))
            == ExtractWith7zip(filePath, extractDir, archiveName, env)
  {
  }
}
