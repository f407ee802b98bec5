/** `commands.rs`: the queue commands the frontend calls, the listing of the
    map groups under the data directory, the names of the links that mount
    map files, and the arithmetic that centres a child window. The download
    queue here has the shape these commands use: a list of waiting task IDs,
    a list of active task IDs and a map from ID to task. */
module Commands {
  import opened Wrappers
  import opened Text
  import opened Paths
  import DirManager

  // ---------------------------------------------------------------------
  // The download queue as the commands see it

  /** `DownloadTask` as `install` builds it. */
  datatype DownloadTask = DownloadTask(
    id: string, url: string, savepath: Option<string>, saveonly: bool,
    extractDir: string, filename: Option<string>)

  /** The entry `refresh_download_queue` reports for a task. */
  datatype TaskEntry = TaskEntry(id: string, url: string, filename: Option<string>)

  /** `s` without any occurrence of `x`, the others in their order. */
  function RemoveAll(s: seq<string>, x: string): seq<string> {
    if s == [] then []
    else
      var init := RemoveAll(s[..|s| - 1], x);
      if s[|s| - 1] == x then init else init + [s[|s| - 1]]
  }

  /** `x` is gone and every other ID keeps its number of occurrences. */
  lemma {:induction false} RemoveAllCounts(s: seq<string>, x: string)
    ensures multiset(RemoveAll(s, x))[x] == 0
    ensures forall y :: y != x ==> multiset(RemoveAll(s, x))[y] == multiset(s)[y]
    decreases |s|
  {
    if s != [] {
      var init := s[..|s| - 1];
      RemoveAllCounts(init, x);
      assert s == init + [s[|s| - 1]];
    }
  }

  /** Removing an ID that is not there changes nothing. */
  lemma {:induction false} RemoveAbsent(s: seq<string>, x: string)
    requires forall k :: 0 <= k < |s| ==> s[k] != x
    ensures RemoveAll(s, x) == s
    decreases |s|
  {
    if s != [] {
      RemoveAbsent(s[..|s| - 1], x);
    }
  }

  /** `Vec::remove` at the first position of `x`; nothing when it is absent. */
  function RemoveFirst(s: seq<string>, x: string): seq<string> {
    match PositionOf(s, x)
    case None => s
    case Some(i) => s[..i] + s[i + 1..]
  }

  /** Removing the first occurrence takes exactly one `x` away. */
  lemma RemoveFirstCounts(s: seq<string>, x: string)
    requires PositionOf(s, x).Some?
    ensures multiset(RemoveFirst(s, x)) == multiset(s) - multiset{x}
  {
    var i := PositionOf(s, x).value;
    assert RemoveFirst(s, x) == s[..i] + s[i + 1..];
    RemoveAtCounts(s, i);
  }

  lemma RemoveAtCounts(s: seq<string>, i: nat)
    requires i < |s|
    ensures multiset(s[..i] + s[i + 1..]) == multiset(s) - multiset{s[i]}
  {
    assert s == s[..i] + [s[i]] + s[i + 1..];
    assert multiset(s) == multiset(s[..i]) + multiset{s[i]} + multiset(s[i + 1..]);
  }

  /** The message `cancel_download` returns. */
  function CancelMessage(taskId: string): string {
    "已成功请求取消下载任务: " + taskId
  }

  /** The message `refresh_download_queue` returns. */
  function RefreshMessage(waiting: nat, active: nat): string {
    "成功刷新下载队列，等待任务数: " + DecimalString(waiting) + ", 活跃任务数: " + DecimalString(active)
  }

  /** The message `cancel_all_downloads` returns. */
  function CancelAllMessage(count: nat): string {
    "已成功取消所有排队任务，共取消 " + DecimalString(count) + " 个任务"
  }

  /** `DOWNLOAD_QUEUE` with the fields the commands read and write, and the
      cancel requests aria2's monitor reads (`CANCEL_DOWNLOAD_REQUESTS`). */
  class CommandQueue {
    var waitingTasks: seq<string>
    var activeTasks: seq<string>
    var tasks: map<string, DownloadTask>
    var cancelRequests: map<string, string>

    constructor (waiting: seq<string>, active: seq<string>, known: map<string, DownloadTask>)
      ensures waitingTasks == waiting && activeTasks == active && tasks == known && cancelRequests == map[]
    {
      waitingTasks := waiting;
      activeTasks := active;
      tasks := known;
      cancelRequests := map[];
    }

    /** `cancel_download`: every waiting occurrence of the ID is dropped; an
        active ID loses its first occurrence and a cancel request with the
        reason (`normal` when none is given) is recorded. The task map is
        untouched, and the call always succeeds. */
    method CancelDownload(taskId: string, reason: Option<string>) returns (r: Result<string, string>)
      modifies this`waitingTasks, this`activeTasks, this`cancelRequests
      ensures waitingTasks == RemoveAll(old(waitingTasks), taskId)
      ensures PositionOf(old(activeTasks), taskId).Some? ==>
                activeTasks == RemoveFirst(old(activeTasks), taskId)
                && cancelRequests == old(cancelRequests)[taskId := reason.UnwrapOr("normal")]
      ensures PositionOf(old(activeTasks), taskId).None? ==>
                activeTasks == old(activeTasks) && cancelRequests == old(cancelRequests)
      ensures r == Ok(CancelMessage(taskId))
    {
      var cancelReason := reason.UnwrapOr("normal");
      // Vec::retain
      var kept: seq<string> := [];
      for i := 0 to |waitingTasks|
        invariant kept == RemoveAll(waitingTasks[..i], taskId)
      {
        assert waitingTasks[..i + 1][..i] == waitingTasks[..i];
        if waitingTasks[i] != taskId {
          kept := kept + [waitingTasks[i]];
        }
      }
      assert waitingTasks[..|waitingTasks|] == waitingTasks;
      waitingTasks := kept;
      // Iterator::position, then Vec::remove
      var index: Option<nat> := None;
      var j := 0;
      while j < |activeTasks| && index.None?
        invariant 0 <= j <= |activeTasks|
        invariant index.None? ==> forall k :: 0 <= k < j ==> activeTasks[k] != taskId
        invariant index.Some? ==> index == PositionOf(activeTasks, taskId)
      {
        if activeTasks[j] == taskId {
          index := Some(j);
        }
        j := j + 1;
      }
      if index.Some? {
        activeTasks := activeTasks[..index.value] + activeTasks[index.value + 1..];
        cancelRequests := cancelRequests[taskId := cancelReason];
      }
      r := Ok(CancelMessage(taskId));
    }

    /** `cancel_all_downloads`: the waiting list is emptied and its former
        length reported; the active list is kept. */
    method CancelAllDownloads() returns (r: Result<string, string>, cleared: nat)
      modifies this`waitingTasks
      ensures waitingTasks == [] && cleared == |old(waitingTasks)|
      ensures r == Ok(CancelAllMessage(cleared))
    {
      cleared := |waitingTasks|;
      waitingTasks := [];
      r := Ok(CancelAllMessage(cleared));
    }

    /** `refresh_download_queue`: the snapshot it sends to the main window,
        and its message with the waiting and active counts. */
    method RefreshDownloadQueue() returns (snapshot: Snapshot, r: Result<string, string>)
      ensures snapshot == SnapshotOf(activeTasks, waitingTasks, tasks)
      ensures r == Ok(RefreshMessage(|snapshot.waitingTasks|, |snapshot.activeTasks|))
    {
      snapshot := SnapshotOf(activeTasks, waitingTasks, tasks);
      r := Ok(RefreshMessage(|snapshot.waitingTasks|, |snapshot.activeTasks|));
    }
  }

  /** Cancelling an ID in neither list leaves both lists as they were. */
  lemma CancelUnknownChangesNothing(waiting: seq<string>, active: seq<string>, taskId: string)
    requires forall k :: 0 <= k < |waiting| ==> waiting[k] != taskId
    requires forall k :: 0 <= k < |active| ==> active[k] != taskId
    ensures RemoveAll(waiting, taskId) == waiting && PositionOf(active, taskId).None?
  {
    RemoveAbsent(waiting, taskId);
  }

  // ---------------------------------------------------------------------
  // refresh_download_queue

  /** The entries of the IDs the task map knows, in the order of `ids`
      (`filter_map` over `tasks.get`). */
  function Known(ids: seq<string>, tasks: map<string, DownloadTask>): seq<TaskEntry> {
    if ids == [] then []
    else
      var init := Known(ids[..|ids| - 1], tasks);
      var id := ids[|ids| - 1];
      if id in tasks then init + [EntryOf(tasks[id])] else init
  }

  function EntryOf(t: DownloadTask): TaskEntry {
    TaskEntry(t.id, t.url, t.filename)
  }

  /** When the map knows every ID, every ID gives its entry, in order. */
  lemma {:induction false} KnownAll(ids: seq<string>, tasks: map<string, DownloadTask>)
    requires forall k :: 0 <= k < |ids| ==> ids[k] in tasks
    ensures |Known(ids, tasks)| == |ids|
    ensures forall k :: 0 <= k < |ids| ==> Known(ids, tasks)[k] == EntryOf(tasks[ids[k]])
    decreases |ids|
  {
    if ids != [] {
      KnownAll(ids[..|ids| - 1], tasks);
    }
  }

  /** IDs the map does not know are dropped; the rest keep their order. */
  lemma {:induction false} KnownAppend(a: seq<string>, b: seq<string>, tasks: map<string, DownloadTask>)
    ensures Known(a + b, tasks) == Known(a, tasks) + Known(b, tasks)
    decreases |b|
  {
    if b == [] {
      assert a + b == a;
    } else {
      var b' := b[..|b| - 1];
      assert (a + b)[..|a + b| - 1] == a + b';
      KnownAppend(a, b', tasks);
    }
  }

  /** No entry more than IDs. */
  lemma {:induction false} KnownShorter(ids: seq<string>, tasks: map<string, DownloadTask>)
    ensures |Known(ids, tasks)| <= |ids|
    decreases |ids|
  {
    if ids != [] {
      KnownShorter(ids[..|ids| - 1], tasks);
    }
  }

  datatype Snapshot = Snapshot(waitingTasks: seq<TaskEntry>, totalTasks: nat, activeTasks: seq<TaskEntry>)

  /** The `download-queue-update` payload: active entries, waiting entries,
      and their total. */
  function SnapshotOf(active: seq<string>, waiting: seq<string>, tasks: map<string, DownloadTask>): (s: Snapshot)
    ensures s.activeTasks == Known(active, tasks) && s.waitingTasks == Known(waiting, tasks)
    ensures s.totalTasks == |s.activeTasks| + |s.waitingTasks|
  {
    var a := Known(active, tasks);
    var w := Known(waiting, tasks);
    Snapshot(w, |a| + |w|, a)
  }

  /** The total never exceeds the number of listed IDs, and equals it when
      the map knows every ID. */
  lemma SnapshotTotal(active: seq<string>, waiting: seq<string>, tasks: map<string, DownloadTask>)
    ensures SnapshotOf(active, waiting, tasks).totalTasks <= |active| + |waiting|
    ensures (forall k :: 0 <= k < |active| ==> active[k] in tasks)
            && (forall k :: 0 <= k < |waiting| ==> waiting[k] in tasks) ==>
              SnapshotOf(active, waiting, tasks).totalTasks == |active| + |waiting|
  {
    KnownShorter(active, tasks);
    KnownShorter(waiting, tasks);
    if (forall k :: 0 <= k < |active| ==> active[k] in tasks)
       && (forall k :: 0 <= k < |waiting| ==> waiting[k] in tasks) {
      KnownAll(active, tasks);
      KnownAll(waiting, tasks);
    }
  }

  // ---------------------------------------------------------------------
  // Link names: format!("nmd_link_{:016x}.vpk", hash)

  /** Rust's `u64`, the digest `DefaultHasher::finish` returns. */
  newtype u64 = x: int | 0 <= x < 0x1_0000_0000_0000_0000

  function HexDigit(d: nat): (c: char)
    requires d < 16
  {
    if d < 10 then '0' + d as char else 'a' + (d - 10) as char
  }

  predicate IsHexDigit(c: char) {
    '0' <= c <= '9' || 'a' <= c <= 'f'
  }

  function HexDigitValue(c: char): (d: nat)
    requires IsHexDigit(c)
    ensures d < 16 && HexDigit(d) == c
  {
    if c <= '9' then (c - '0') as nat else (c - 'a') as nat + 10
  }

  function Pow16(w: nat): (p: nat)
    ensures p >= 1
  {
    if w == 0 then 1 else 16 * Pow16(w - 1)
  }

  /** `{:0wx}`: the `w` lowest hex digits of `n`, lower case, most
      significant first. */
  function HexFixed(n: nat, w: nat): (r: string)
    ensures |r| == w && forall k :: 0 <= k < w ==> IsHexDigit(r[k])
  {
    if w == 0 then [] else HexFixed(n / 16, w - 1) + [HexDigit(n % 16)]
  }

  /** The number a string of hex digits denotes. */
  function HexValue(s: string): nat
    requires forall k :: 0 <= k < |s| ==> IsHexDigit(s[k])
  {
    if s == [] then 0 else 16 * HexValue(s[..|s| - 1]) + HexDigitValue(s[|s| - 1])
  }

  /** Reading the digits back gives the number, when it fits in `w` digits. */
  lemma {:induction false} HexRoundTrip(n: nat, w: nat)
    requires n < Pow16(w)
    ensures HexValue(HexFixed(n, w)) == n
  {
    if w > 0 {
      var r := HexFixed(n, w);
      assert r[..|r| - 1] == HexFixed(n / 16, w - 1);
      HexRoundTrip(n / 16, w - 1);
      assert HexDigitValue(HexDigit(n % 16)) == n % 16;
    }
  }

  lemma U64IsSixteenDigits()
    ensures Pow16(16) == 0x1_0000_0000_0000_0000
  {
    assert Pow16(4) == 0x1_0000 by {
      assert Pow16(1) == 0x10 && Pow16(2) == 0x100 && Pow16(3) == 0x1000;
    }
    assert Pow16(8) == 0x1_0000_0000 by {
      assert Pow16(5) == 0x1_0000_0 && Pow16(6) == 0x1_0000_00 && Pow16(7) == 0x1_0000_000;
    }
    assert Pow16(12) == 0x1_0000_0000_0000 by {
      assert Pow16(9) == 0x1_0000_0000_0 && Pow16(10) == 0x1_0000_0000_00 && Pow16(11) == 0x1_0000_0000_000;
    }
    assert Pow16(13) == 0x1_0000_0000_0000_0 && Pow16(14) == 0x1_0000_0000_0000_00;
    assert Pow16(15) == 0x1_0000_0000_0000_000;
  }

  const LinkPrefix: string := "nmd_link_"
  const LinkSuffix: string := ".vpk"

  /** The link name of a digest. */
  function LinkName(hash: u64): (r: string)
    ensures |r| == |LinkPrefix| + 16 + |LinkSuffix|
  {
    LinkPrefix + (HexFixed(hash as nat, 16) + LinkSuffix)
  }

  /** The path the digest is taken of: `group/file`. */
  function RelativePath(group: string, file: string): string {
    group + "/" + file
  }

  /** The link name `get_maps`, `mount_file` and `unmount_file` all derive
      for a file of a group; `hash` is `DefaultHasher` over the string. */
  function LinkNameOf(group: string, file: string, hash: string -> u64): string {
    LinkName(hash(RelativePath(group, file)))
  }

  /** The digest back from a link name, if the text is one. */
  function ParseLinkName(s: string): Option<u64> {
    if |s| == |LinkPrefix| + 16 + |LinkSuffix| && s[..|LinkPrefix|] == LinkPrefix
       && s[|LinkPrefix| + 16..] == LinkSuffix
       && forall k :: |LinkPrefix| <= k < |LinkPrefix| + 16 ==> IsHexDigit(s[k])
    then
      var digits := s[|LinkPrefix|..|LinkPrefix| + 16];
      assert forall k :: 0 <= k < |digits| ==> digits[k] == s[|LinkPrefix| + k];
      var v := HexValue(digits);
      if v < 0x1_0000_0000_0000_0000 then Some(v as u64) else None
    else None
  }

  /** A link name gives its digest back, so two files with different digests
      never share a link. */
  lemma LinkNameRoundTrip(hash: u64)
    ensures ParseLinkName(LinkName(hash)) == Some(hash)
  {
    var r := LinkName(hash);
    var digits := HexFixed(hash as nat, 16);
    assert r[..|LinkPrefix|] == LinkPrefix;
    assert r[|LinkPrefix|..|LinkPrefix| + 16] == digits;
    assert r[|LinkPrefix| + 16..] == LinkSuffix;
    U64IsSixteenDigits();
    HexRoundTrip(hash as nat, 16);
  }

  lemma LinkNameInjective(h1: u64, h2: u64)
    requires LinkName(h1) == LinkName(h2)
    ensures h1 == h2
  {
    LinkNameRoundTrip(h1);
    LinkNameRoundTrip(h2);
  }

  // ---------------------------------------------------------------------
  // Centring the file manager window on the main window

  /** Rust's `as i32` and wrapping `i32` arithmetic: the value modulo 2^32,
      read as two's complement. */
  function WrapI32(x: int): (r: int)
    ensures -0x8000_0000 <= r < 0x8000_0000
    ensures -0x8000_0000 <= x < 0x8000_0000 ==> r == x
  {
    (x + 0x8000_0000) % 0x1_0000_0000 - 0x8000_0000
  }

  /** Rust's `/` on integers: the quotient truncated toward zero. */
  function TruncDiv(a: int, b: int): (q: int)
    requires b > 0
  {
    if a >= 0 then a / b else -((-a) / b)
  }

  /** The truncated quotient leaves a remainder with the dividend's sign. */
  lemma TruncDivRemainder(a: int, b: int)
    requires b > 0
    ensures var q := TruncDiv(a, b);
            var rem := a - q * b;
            -b < rem < b && (a >= 0 ==> rem >= 0) && (a < 0 ==> rem <= 0)
  {
  }

  /** `main_pos + ((main_size as i32 - child_size as i32) / 2)` with the
      release build's wrapping arithmetic; the same for `x` and `y`. */
  function CentredCoord(mainPos: int, mainSize: nat, childSize: nat): (r: int)
    requires -0x8000_0000 <= mainPos < 0x8000_0000
    requires mainSize < 0x1_0000_0000 && childSize < 0x1_0000_0000
    ensures -0x8000_0000 <= r < 0x8000_0000
  {
    WrapI32(mainPos + TruncDiv(WrapI32(WrapI32(mainSize) - WrapI32(childSize)), 2))
  }

  /** When nothing overflows, the child's margins inside the main window (or
      its overhang beyond it) differ by at most one pixel, and an odd
      difference is rounded toward the main window's origin. */
  lemma CentredMargins(mainPos: int, mainSize: nat, childSize: nat)
    requires -0x8000_0000 <= mainPos < 0x8000_0000
    requires mainSize < 0x8000_0000 && childSize < 0x8000_0000
    requires -0x8000_0000 <= mainPos + (mainSize - childSize) / 2 < 0x8000_0000
    requires -0x8000_0000 <= mainPos - (childSize - mainSize) / 2 < 0x8000_0000
    ensures var x := CentredCoord(mainPos, mainSize, childSize);
            var left := x - mainPos;
            var right := (mainPos + mainSize) - (x + childSize);
            left == TruncDiv(mainSize - childSize, 2) && -1 <= right - left <= 1
            && (mainSize >= childSize ==> 0 <= left <= right)
            && (mainSize < childSize ==> right <= left <= 0)
  {
    TruncDivRemainder(mainSize - childSize, 2);
    var q := TruncDiv(mainSize - childSize, 2);
    assert -0x8000_0000 <= mainPos + q < 0x8000_0000;
  }

  /** A child wider than the main window by an odd number of pixels is
      placed one pixel right of where a flooring division would put it. */
  lemma CentringTruncates(mainPos: int, mainSize: nat, childSize: nat)
    requires -0x8000_0000 <= mainPos < 0x8000_0000
    requires mainSize < childSize < 0x8000_0000
    requires -0x8000_0000 <= mainPos - (childSize - mainSize) / 2 < 0x8000_0000
    requires (childSize - mainSize) % 2 == 1
    ensures CentredCoord(mainPos, mainSize, childSize) == mainPos + (mainSize - childSize) / 2 + 1
  {
    var d := childSize - mainSize;
    assert WrapI32(mainSize) - WrapI32(childSize) == -d;
    assert TruncDiv(-d, 2) == -(d / 2);
    assert (mainSize - childSize) / 2 == -(d / 2) - 1;
  }

  // ---------------------------------------------------------------------
  // get_maps

  /** One entry of a group folder as `read_dir` yields it: its name, whether
      it is a regular file, and its size or the error `metadata` gave. */
  datatype FileEntry = FileEntry(name: string, isFile: bool, size: Result<nat, string>)

  /** One entry of the maps directory: its name, whether it is a directory,
      and the entries of that directory or the error listing it gave. */
  datatype FolderEntry = FolderEntry(name: string, isDir: bool, files: Result<seq<Result<FileEntry, string>>, string>)

  /** `{"name", "size", "mounted", "link_name"}` */
  datatype MapFile = MapFile(name: string, size: nat, mounted: bool, linkName: string)

  /** `{"name", "files", "mounted"}` */
  datatype MapGroup = MapGroup(name: string, files: seq<MapFile>, mounted: bool)

  /** What a readable regular file contributes: a size of 0 when its
      metadata cannot be read, and mounted when its link exists in `addons`. */
  function MapFileOf(group: string, e: FileEntry, addons: string, present: string -> bool, hash: string -> u64)
    : MapFile
  {
    var link := LinkNameOf(group, e.name, hash);
    MapFile(e.name, if e.size.Ok? then e.size.value else 0, present(Join(addons, link)), link)
  }

  /** The files of a group, in listing order: unreadable entries and
      anything but regular files are skipped. */
  function GroupFiles(group: string, entries: seq<Result<FileEntry, string>>, addons: string,
                      present: string -> bool, hash: string -> u64): seq<MapFile>
  {
    if entries == [] then []
    else
      var init := GroupFiles(group, entries[..|entries| - 1], addons, present, hash);
      var e := entries[|entries| - 1];
      if e.Ok? && e.value.isFile then init + [MapFileOf(group, e.value, addons, present, hash)] else init
  }

  predicate AllMounted(files: seq<MapFile>) {
    forall k :: 0 <= k < |files| ==> files[k].mounted
  }

  /** The groups, in listing order: only readable directories with at least
      one file; a folder that cannot be listed counts as empty. */
  function MapGroups(folders: seq<Result<FolderEntry, string>>, addons: string,
                     present: string -> bool, hash: string -> u64): seq<MapGroup>
  {
    if folders == [] then []
    else
      var init := MapGroups(folders[..|folders| - 1], addons, present, hash);
      var f := folders[|folders| - 1];
      if f.Ok? && f.value.isDir then
        var files := if f.value.files.Ok? then GroupFiles(f.value.name, f.value.files.value, addons, present, hash) else [];
        if files != [] then init + [MapGroup(f.value.name, files, AllMounted(files))] else init
      else init
  }

  /** Every file carries the link name derived from `group/file`, and it is
      mounted exactly when that link exists in the addons directory. */
  lemma {:induction false} GroupFilesLinks(group: string, entries: seq<Result<FileEntry, string>>, addons: string,
                                           present: string -> bool, hash: string -> u64)
    ensures var files := GroupFiles(group, entries, addons, present, hash);
            |files| <= |entries|
            && forall k :: 0 <= k < |files| ==>
                 files[k].linkName == LinkNameOf(group, files[k].name, hash)
                 && (files[k].mounted <==> present(Join(addons, files[k].linkName)))
    decreases |entries|
  {
    if entries != [] {
      GroupFilesLinks(group, entries[..|entries| - 1], addons, present, hash);
    }
  }

  /** Every listed group has a file, and it is mounted exactly when all its
      files are. */
  lemma {:induction false} MapGroupsShape(folders: seq<Result<FolderEntry, string>>, addons: string,
                                          present: string -> bool, hash: string -> u64)
    ensures var groups := MapGroups(folders, addons, present, hash);
            |groups| <= |folders|
            && forall k :: 0 <= k < |groups| ==>
                 groups[k].files != [] && (groups[k].mounted <==> AllMounted(groups[k].files))
    decreases |folders|
  {
    if folders != [] {
      MapGroupsShape(folders[..|folders| - 1], addons, present, hash);
    }
  }

  /** The inner loop of `get_maps` over one group folder's entries. */
  method ListGroupFiles(group: string, entries: seq<Result<FileEntry, string>>, addons: string,
                        present: string -> bool, hash: string -> u64) returns (files: seq<MapFile>)
    ensures files == GroupFiles(group, entries, addons, present, hash)
  {
    files := [];
    for i := 0 to |entries|
      invariant files == GroupFiles(group, entries[..i], addons, present, hash)
    {
      assert entries[..i + 1][..i] == entries[..i];
      var e := entries[i];
      if e.Ok? && e.value.isFile {
        var link := LinkNameOf(group, e.value.name, hash);
        var size := if e.value.size.Ok? then e.value.size.value else 0;
        files := files + [MapFile(e.value.name, size, present(Join(addons, link)), link)];
      }
    }
    assert entries[..|entries|] == entries;
  }

  /** The outer loop of `get_maps` over the maps directory. */
  method ListMapGroups(folders: seq<Result<FolderEntry, string>>, addons: string,
                       present: string -> bool, hash: string -> u64) returns (groups: seq<MapGroup>)
    ensures groups == MapGroups(folders, addons, present, hash)
  {
    groups := [];
    for i := 0 to |folders|
      invariant groups == MapGroups(folders[..i], addons, present, hash)
    {
      assert folders[..i + 1][..i] == folders[..i];
      var f := folders[i];
      if f.Ok? && f.value.isDir {
        var files: seq<MapFile> := [];
        if f.value.files.Ok? {
          files := ListGroupFiles(f.value.name, f.value.files.value, addons, present, hash);
        }
        if files != [] {
          groups := groups + [MapGroup(f.value.name, files, AllMounted(files))];
        }
      }
    }
    assert folders[..|folders|] == folders;
  }

  /** `get_maps` from the start. `config` is what `get_data_dir` returns;
      `manager` is `None` while `DIR_MANAGER` holds no manager, and
      otherwise the manager's addons directory; `createDirAll` answers for
      `with_nmd_data_dir`. A manager made here has no addons directory yet,
      so a first call lists nothing. */
  function GetMaps(config: Result<Option<string>, string>, manager: Option<Option<string>>,
                   createDirAll: string -> Option<string>, present: string -> bool,
                   listing: Result<seq<Result<FolderEntry, string>>, string>, hash: string -> u64)
    : (r: Result<seq<MapGroup>, string>)
    ensures config.Err? ==> r == Err(config.error)
    ensures config.Ok? && config.value.None? ==> r.Err?
    ensures config.Ok? && config.value.None? && manager.None? ==> r == Err(DataDirNotConfigured)
    ensures config.Ok? && config.value.Some? && manager.None? ==>
              var made := DirManager.WithNmdDataDir(config.value.value, createDirAll);
              (made.Err? ==> r == Err(made.error)) && (made.Ok? ==> r == Ok([]))
    ensures config.Ok? && manager.Some? ==> r == MapsOfReadyManager(config.value, manager.value, present, listing, hash)
  {
    match config
    case Err(e) => Err(e)
    case Ok(dataDir) =>
      match manager
      case Some(addonsDir) => MapsOfReadyManager(dataDir, addonsDir, present, listing, hash)
      case None =>
        match dataDir
        case None => Err(DataDirNotConfigured)
        case Some(data) =>
          match DirManager.WithNmdDataDir(data, createDirAll)
          case Err(e) => Err(e)
          case Ok(_) => MapsOfReadyManager(dataDir, None, present, listing, hash)
  }

  const DataDirNotConfigured: string := "未配置数据存储目录，请先配置"

  /** `get_maps` after the directory manager is ready: no data directory is
      an error; a missing maps directory, no addons directory, or an addons
      directory that does not exist give an empty list; a maps directory that
      cannot be listed is an error; otherwise the groups. `listing` is what
      `read_dir` gives for `<data>/maps`. */
  function MapsOfReadyManager(dataDir: Option<string>, addonsDir: Option<string>, present: string -> bool,
                   listing: Result<seq<Result<FolderEntry, string>>, string>, hash: string -> u64)
    : (r: Result<seq<MapGroup>, string>)
    ensures dataDir.None? ==> r == Err(NoDataDir)
    ensures dataDir.Some? && r.Err? ==> listing.Err? && r == Err(ReadDirFailed(listing.error))
    ensures r.Ok? && r.value != [] ==>
              dataDir.Some? && present(Join(dataDir.value, "maps")) && addonsDir.Some? && present(addonsDir.value)
              && listing.Ok? && r.value == MapGroups(listing.value, addonsDir.value, present, hash)
    ensures (dataDir.Some? && present(Join(dataDir.value, "maps")) && addonsDir.Some? && present(addonsDir.value)
             && listing.Ok?) ==> r == Ok(MapGroups(listing.value, addonsDir.value, present, hash))
    ensures (dataDir.Some? && present(Join(dataDir.value, "maps")) && addonsDir.Some? && present(addonsDir.value)
             && listing.Err?) ==> r == Err(ReadDirFailed(listing.error))
    ensures dataDir.Some? && (!present(Join(dataDir.value, "maps")) || addonsDir.None? || !present(addonsDir.value))
            ==> r == Ok([])
  {
    match dataDir
    case None => Err(NoDataDir)
    case Some(data) =>
      if !present(Join(data, "maps")) then Ok([])
      else match addonsDir
        case None => Ok([])
        case Some(addons) =>
          if !present(addons) then Ok([])
          else match listing
            case Err(e) => Err(ReadDirFailed(e))
            case Ok(folders) => Ok(MapGroups(folders, addons, present, hash))
  }

  const NoDataDir: string := "无法获取 nmd_data 目录"

  function ReadDirFailed(e: string): string {
    "读取目录失败: " + e
  }

  // ---------------------------------------------------------------------
  // The extraction directory of `install`

  /** As written: `downloads_dir().parent().join("maps")`, which names
      `<data>/bin/maps`, since the downloads directory is `<data>/bin/cache`. */
  function InstallExtractDirAsWritten(d: DirManager.Dirs): Option<string> {
    match Parent(d.downloads)
    case None => None
    case Some(p) => Some(Join(p, "maps"))
  }

  /** Corrected: `install` extracts into the maps directory of the layout,
      which is the `<data>/maps` that `get_maps` lists, and not the
      as-written `<data>/bin/maps`. */
  function InstallExtractDir(data: string): (r: string)
    ensures r == Join(data, "maps")
    ensures r != Join(DirManager.Layout(data).bin, "maps")
  {
    var bin := Join(data, "bin");
    DirManager.BinIsPlain(data);
    JoinAddsSeparator(bin, "maps");
    assert |bin| >= |data| + 3;
    DirManager.Layout(data).maps
  }

  /** Joining onto a directory that does not end in a separator adds one. */
  lemma JoinAddsSeparator(base: string, part: string)
    requires base != [] && !IsSeparator(base[|base| - 1])
    ensures |Join(base, part)| == |base| + 1 + |part|
  {
  }

  /** For the layout `with_nmd_data_dir` creates, the directory `install`
      extracts into as written is `<data>/bin/maps`, not the maps directory
      `<data>/maps` that `get_maps` lists, so installed maps never show up;
      the corrected directory is the data directory's `maps`. This holds for
      every data directory, a drive root such as `D:\` included. */
  lemma InstallExtractsOutsideMaps(data: string)
    ensures var d := DirManager.Layout(data);
            InstallExtractDirAsWritten(d) == Some(Join(d.bin, "maps"))
            && InstallExtractDirAsWritten(d) != Some(Join(data, "maps"))
            && InstallExtractDir(data) == Join(data, "maps")
  {
    var bin := Join(data, "bin");
    DirManager.BinIsPlain(data);
    DirManager.JoinName(bin, "cache");
    JoinAddsSeparator(bin, "maps");
    assert |bin| >= |data| + 3;
    assert |Join(data, "maps")| <= |data| + 5;
  }
}
