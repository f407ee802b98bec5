/** The download side of `aria2c.rs`: the queue of downloads waiting for
    aria2c to start, the name a download is saved under, the elapsed and
    remaining times shown with its progress, and how the monitor reacts to
    status queries that keep failing. */
module Aria2cDownload {
  import opened Wrappers
  import opened Text
  import opened QueueManager
  import opened Aria2cRpc

  // ---------------------------------------------------------------------
  // Downloads waiting for aria2c
  // ---------------------------------------------------------------------

  /** A download requested before aria2c finished starting; the app handle
      and the reply channel are not part of this model. */
  datatype PendingTask = PendingDownload(url: string, taskId: string)

  const PendingTasksCap: u32 := 5

  /** `PENDING_TASKS_MANAGER`: at most five waiting downloads are run at once. */
  method NewPendingTasks() returns (q: TaskQueue<PendingTask>)
    ensures fresh(q) && q.Valid()
    ensures q.queue == [] && q.activeTasks == {} && q.maxConcurrentTasks == 5
  {
    q := new TaskQueue<PendingTask>(PendingTasksCap);
  }

  // ---------------------------------------------------------------------
  // The saved file's name
  // ---------------------------------------------------------------------

  /** `s.split(c).last()`: what follows the last `c`, or all of `s`. */
  function LastPiece(s: string, c: char): string {
    var parts := Split(s, c);
    parts[|parts| - 1]
  }

  /** The same piece found with `rfind`. */
  function AfterLast(s: string, c: char): (r: string)
    ensures forall k :: 0 <= k < |r| ==> r[k] != c
    ensures |r| <= |s| && r == s[|s| - |r|..]
    ensures |r| < |s| ==> s[|s| - |r| - 1] == c
  {
    match LastIndexOfChar(s, c)
    case None => s
    case Some(i) => s[i + 1..]
  }

  /** Dropping a front that ends in `c` leaves the piece after the last `c`. */
  lemma AfterLastOfSuffix(s: string, c: char, i: nat)
    requires i < |s| && s[i] == c
    ensures AfterLast(s[i + 1..], c) == AfterLast(s, c)
  {
    var t := s[i + 1..];
    assert LastIndexOfChar(s, c).Some?;
    var j := LastIndexOfChar(s, c).value;
    assert i <= j;
    if j == i {
      assert forall k :: 0 <= k < |t| ==> t[k] == s[i + 1 + k];
      assert LastIndexOfChar(t, c).None?;
    } else {
      var m := j - i - 1;
      assert t[m] == s[j];
      assert forall k :: m < k < |t| ==> t[k] == s[i + 1 + k];
      LastIndexOfCharAt(t, c, m);
      assert t[m + 1..] == s[j + 1..];
    }
  }

  /** The piece after `a + [c]` when the rest has no `c`. */
  lemma AfterLastOfJoin(a: string, c: char, b: string)
    requires forall k :: 0 <= k < |b| ==> b[k] != c
    ensures AfterLast(a + [c] + b, c) == b
  {
    LastIndexOfCharBefore(a, c, b);
    assert (a + [c] + b)[|a| + 1..] == b;
  }

  /** `split(c).last()` is the piece after the last `c`. */
  lemma {:induction false} LastPieceIsAfterLast(s: string, c: char)
    ensures LastPiece(s, c) == AfterLast(s, c)
    decreases |s|
  {
    match PositionOf(s, c)
    case None =>
      assert Split(s, c) == [s];
    case Some(i) =>
      var rest := Split(s[i + 1..], c);
      assert Split(s, c) == [s[..i]] + rest;
      assert LastPiece(s, c) == LastPiece(s[i + 1..], c);
      LastPieceIsAfterLast(s[i + 1..], c);
      AfterLastOfSuffix(s, c, i);
  }

  /** The extension kept for the saved file: what follows the last `.` of
      the URL's last `/`-segment, when it takes at most six bytes. */
  function Extension(url: string): (r: Option<string>)
    ensures var ext := AfterLast(AfterLast(url, '/'), '.');
            (r.Some? <==> Utf8Length(ext) <= 6) && (r.Some? ==> r.value == "." + ext)
  {
    var name := LastPiece(url, '/');
    var ext := LastPiece(name, '.');
    LastPieceIsAfterLast(url, '/');
    LastPieceIsAfterLast(name, '.');
    if Utf8Length(ext) <= 6 then Some("." + ext) else None
  }

  /** The name the file is saved under: the UUID and the extension, if any. */
  function OutputName(uuid: string, url: string): (r: string)
    ensures var ext := AfterLast(AfterLast(url, '/'), '.');
            r == if Utf8Length(ext) <= 6 then uuid + "." + ext else uuid
  {
    match Extension(url)
    case Some(ext) => uuid + ext
    case None => uuid
  }

  /** The last piece of `a + [c] + b`, found with `split`, is `b` when `b`
      has no `c`. */
  lemma LastPieceOfJoin(a: string, c: char, b: string)
    requires forall k :: 0 <= k < |b| ==> b[k] != c
    ensures LastPiece(a + [c] + b, c) == b
  {
    LastPieceIsAfterLast(a + [c] + b, c);
    AfterLastOfJoin(a, c, b);
  }

  /** A file name `stem.ext` has no `/` when neither part has. */
  lemma FileNameHasNoSlash(stem: string, ext: string)
    requires forall k :: 0 <= k < |stem| ==> stem[k] != '/'
    requires forall k :: 0 <= k < |ext| ==> ext[k] != '/'
    ensures forall k :: 0 <= k < |stem + ['.'] + ext| ==> (stem + ['.'] + ext)[k] != '/'
  {
    var name := stem + ['.'] + ext;
    forall k | 0 <= k < |name| ensures name[k] != '/' {
      if k < |stem| { assert name[k] == stem[k]; }
      else if k > |stem| { assert name[k] == ext[k - |stem| - 1]; }
    }
  }

  /** A short extension after the last `/` and `.` is kept, behind a dot. */
  lemma ExtensionOfFile(prefix: string, stem: string, ext: string)
    requires forall k :: 0 <= k < |stem| ==> stem[k] != '/'
    requires forall k :: 0 <= k < |ext| ==> ext[k] != '/' && ext[k] != '.'
    requires Utf8Length(ext) <= 6
    ensures Extension(prefix + ['/'] + (stem + ['.'] + ext)) == Some("." + ext)
  {
    var name := stem + ['.'] + ext;
    FileNameHasNoSlash(stem, ext);
    assert AfterLast(prefix + ['/'] + name, '/') == name by {
      AfterLastOfJoin(prefix, '/', name);
    }
    assert AfterLast(name, '.') == ext by {
      AfterLastOfJoin(stem, '.', ext);
    }
  }

  /** A last segment without a dot is taken whole as the extension. */
  lemma ExtensionOfDotlessName(prefix: string, name: string)
    requires forall k :: 0 <= k < |name| ==> name[k] != '/' && name[k] != '.'
    requires Utf8Length(name) <= 6
    ensures Extension(prefix + ['/'] + name) == Some("." + name)
  {
    var url := prefix + ['/'] + name;
    assert AfterLast(AfterLast(url, '/'), '.') == name by {
      AfterLastOfJoin(prefix, '/', name);
      AfterLastWithout(name, '.');
    }
    ExtensionOfShort(url);
  }

  /** A short extension is kept behind a dot. */
  lemma ExtensionOfShort(url: string)
    requires Utf8Length(AfterLast(AfterLast(url, '/'), '.')) <= 6
    ensures Extension(url) == Some("." + AfterLast(AfterLast(url, '/'), '.'))
  {
  }

  /** A text without `c` is its own piece after the last `c`. */
  lemma AfterLastWithout(s: string, c: char)
    requires forall k :: 0 <= k < |s| ==> s[k] != c
    ensures AfterLast(s, c) == s
  {
  }

  /** An extension longer than six bytes is dropped. */
  lemma LongExtensionDropped(uuid: string, url: string)
    requires Utf8Length(AfterLast(AfterLast(url, '/'), '.')) > 6
    ensures OutputName(uuid, url) == uuid
  {
  }

  /** A URL that ends in `/` gives the extension `.` alone. */
  lemma TrailingSlashGivesBareDot(prefix: string)
    ensures Extension(prefix + ['/']) == Some(".")
  {
    var url := prefix + ['/'];
    assert url == prefix + ['/'] + [];
    AfterLastOfJoin(prefix, '/', []);
    assert AfterLast([], '.') == [];
    assert Utf8Length([]) == 0;
    assert "." + [] == ".";
  }

  // ---------------------------------------------------------------------
  // Elapsed and remaining time
  // ---------------------------------------------------------------------

  /** Whole hours from an hour on, whole minutes from a minute on, seconds
      below that (lines 1290-1296 for the elapsed time, 1304-1310 for the
      remaining time). */
  function FormatDuration(secs: nat): string {
    if secs >= 3600 then DecimalString(secs / 3600) + "h"
    else if secs >= 60 then DecimalString(secs / 60) + "m"
    else DecimalString(secs) + "s"
  }

  function UnitSeconds(u: char): nat {
    if u == 'h' then 3600 else if u == 'm' then 60 else 1
  }

  /** The time shown, read back as a number and a unit, is the duration
      rounded down to that unit, and the unit is the largest that fits. */
  lemma DurationReadsBack(secs: nat)
    ensures var r := FormatDuration(secs);
            var u := r[|r| - 1];
            var amount := r[..|r| - 1];
            (u == 'h' || u == 'm' || u == 's') && AllDigits(amount)
            && DigitsValue(amount) * UnitSeconds(u) <= secs < (DigitsValue(amount) + 1) * UnitSeconds(u)
            && (u == 'h' <==> secs >= 3600) && (u == 's' <==> secs < 60)
  {
    var r := FormatDuration(secs);
    var q := if secs >= 3600 then secs / 3600 else if secs >= 60 then secs / 60 else secs;
    assert r[..|r| - 1] == DecimalString(q);
  }

  const U64Modulus: nat := U64Max + 1

  /** `status.progress < 100.0`, stated on the integers the percentage is
      computed from: an unknown total counts as 0 %. */
  predicate BelowComplete(st: DownloadStatus) {
    st.totalLength == 0 || st.completedLength < st.totalLength
  }

  /** The seconds left as written: `total_length - completed_length` on
      `u64`, which wraps around in a release build. */
  function EtaSecondsAsWritten(st: DownloadStatus): nat
    requires st.downloadSpeed > 0
  {
    ((st.totalLength - st.completedLength) % U64Modulus) / st.downloadSpeed
  }

  /** The seconds left with the subtraction saturating at 0. */
  function EtaSeconds(st: DownloadStatus): (r: nat)
    requires st.downloadSpeed > 0
    ensures r * st.downloadSpeed <= st.totalLength
  {
    var remaining := if st.completedLength <= st.totalLength then st.totalLength - st.completedLength else 0;
    remaining / st.downloadSpeed
  }

  const NoEta := "0s"

  function EtaTextAsWritten(st: DownloadStatus): string {
    if st.downloadSpeed > 0 && BelowComplete(st) then FormatDuration(EtaSecondsAsWritten(st)) else NoEta
  }

  function EtaText(st: DownloadStatus): string {
    if st.downloadSpeed > 0 && BelowComplete(st) then FormatDuration(EtaSeconds(st)) else NoEta
  }

  /** The `eta` member of the progress event, which saturates (line 1366). */
  function EtaField(st: DownloadStatus): nat {
    if st.downloadSpeed > 0 then EtaSeconds(st) else 0
  }

  /** While aria2 reports no more done than the total, the ETA as written
      is the corrected one. */
  lemma EtaAgrees(st: DownloadStatus)
    requires InU64(st) && st.completedLength <= st.totalLength
    ensures EtaTextAsWritten(st) == EtaText(st)
  {
    if st.downloadSpeed > 0 {
      var d := st.totalLength - st.completedLength;
      assert 0 <= d < U64Modulus;
      assert d % U64Modulus == d;
    }
  }

  /** The ETA shown is the `eta` member of the event, formatted. */
  lemma EtaTextIsEtaField(st: DownloadStatus)
    requires st.downloadSpeed > 0 && BelowComplete(st)
    ensures EtaText(st) == FormatDuration(EtaField(st))
  {
  }

  /** Before aria2 knows the size it reports a total of 0; with one byte
      done at one byte a second the subtraction as written wraps to
      2^64 - 1 and the ETA shown is some 5 * 10^15 hours, where the
      saturating one is 0 seconds. */
  lemma EtaUnderflows()
    ensures var st := DownloadStatus(1, 1, 0, 1);
            EtaSecondsAsWritten(st) == U64Max && EtaSecondsAsWritten(st) * st.downloadSpeed > st.totalLength
            && EtaTextAsWritten(st) == FormatDuration(U64Max) && FormatDuration(U64Max) != NoEta
            && EtaText(st) == NoEta
  {
    var st := DownloadStatus(1, 1, 0, 1);
    assert (st.totalLength - st.completedLength) % U64Modulus == U64Max;
    DurationReadsBack(U64Max);
    assert FormatDuration(0) == NoEta;
  }

  // ---------------------------------------------------------------------
  // Status queries that keep failing
  // ---------------------------------------------------------------------

  /** One status query of the monitor loop. */
  datatype Poll =
    | StatusRead
    | NoStatus
    | StatusFailed(error: string)

  /** `consecutive_failures` after the first `n` polls: a status read
      resets it, a failure adds one, and a task not found leaves it. */
  function Streak(polls: seq<Poll>, n: nat): nat
    requires n <= |polls|
  {
    if n == 0 then 0
    else match polls[n - 1]
      case StatusRead => 0
      case NoStatus => Streak(polls, n - 1)
      case StatusFailed(_) => Streak(polls, n - 1) + 1
  }

  /** What the monitor does about the counter after a poll: drop the RPC
      manager, and send a progress notice carrying the count. */
  datatype Reaction = Reaction(resetManager: bool, notice: Option<nat>)

  function ReactionTo(poll: Poll, count: nat): Reaction {
    if poll.StatusFailed? then Reaction(count % 3 == 0, if count % 2 == 0 then Some(count) else None)
    else Reaction(false, None)
  }

  /** The reactions to the first `n` polls. */
  function Reactions(polls: seq<Poll>, n: nat): (r: seq<Reaction>)
    requires n <= |polls|
    ensures |r| == n
  {
    if n == 0 then [] else Reactions(polls, n - 1) + [ReactionTo(polls[n - 1], Streak(polls, n))]
  }

  /** Each poll's reaction depends on the counter just after it. */
  lemma {:induction false} ReactionsAt(polls: seq<Poll>, n: nat)
    requires n <= |polls|
    ensures forall k :: 0 <= k < n ==> Reactions(polls, n)[k] == ReactionTo(polls[k], Streak(polls, k + 1))
  {
    if n > 0 {
      ReactionsAt(polls, n - 1);
    }
  }

  const MaxConsecutiveFailures: nat := 8

  /** The number of polls after which the counter first reaches the limit. */
  function GiveUpPoint(polls: seq<Poll>, from: nat): (r: Option<nat>)
    requires 1 <= from
    ensures r.Some? ==> from <= r.value <= |polls| && Streak(polls, r.value) == MaxConsecutiveFailures
                        && forall n :: from <= n < r.value ==> Streak(polls, n) != MaxConsecutiveFailures
    ensures r.None? ==> forall n :: from <= n <= |polls| ==> Streak(polls, n) != MaxConsecutiveFailures
    decreases |polls| + 1 - from
  {
    if from > |polls| then None
    else if Streak(polls, from) == MaxConsecutiveFailures then Some(from)
    else GiveUpPoint(polls, from + 1)
  }

  /** How the monitor ends because of failed queries; `Blocked` is a
      thread that waits forever on a lock it already holds. */
  datatype Ending = Watching | FileKept | GaveUp(message: string) | Blocked

  function GaveUpMessage(error: string): string {
    "下载失败：连续获取下载状态失败，最后错误：" + error
  }

  /** The counter never passes the limit: it grows by one at a time and the
      monitor stops when it gets there. */
  lemma StreakStep(polls: seq<Poll>, n: nat)
    requires n < |polls|
    ensures polls[n].StatusRead? ==> Streak(polls, n + 1) == 0
    ensures polls[n].NoStatus? ==> Streak(polls, n + 1) == Streak(polls, n)
    ensures polls[n].StatusFailed? ==> Streak(polls, n + 1) == Streak(polls, n) + 1
    ensures Streak(polls, n + 1) == MaxConsecutiveFailures ==> GiveUpPoint(polls, n + 1) == Some(n + 1)
    ensures Streak(polls, n + 1) != MaxConsecutiveFailures ==> GiveUpPoint(polls, n + 1) == GiveUpPoint(polls, n + 2)
  {
  }

  /** The counter part of the monitor loop, with the manager's guard
      released before the manager is locked again (as written the thread
      blocks instead: `WatchStatusAsWritten`); `fileLength` is the size of the
      downloaded file when the counter reaches the limit, 0 when it cannot
      be read. */
  method WatchStatus(polls: seq<Poll>, fileLength: nat) returns (reactions: seq<Reaction>, ending: Ending)
    ensures !ending.Blocked?
    ensures ending.Watching? <==> GiveUpPoint(polls, 1).None?
    ensures ending.Watching? ==> |reactions| == |polls|
    ensures !ending.Watching? ==> |reactions| == GiveUpPoint(polls, 1).value && polls[|reactions| - 1].StatusFailed?
    ensures |reactions| <= |polls| && reactions == Reactions(polls, |reactions|)
    ensures ending.FileKept? <==> !ending.Watching? && fileLength > 0
    ensures ending.GaveUp? ==> ending.message == GaveUpMessage(polls[|reactions| - 1].error)
  {
    var consecutiveFailures := 0;
    reactions := [];
    ending := Watching;
    var i := 0;
    while i < |polls|
      invariant 0 <= i <= |polls|
      invariant consecutiveFailures == Streak(polls, i) < MaxConsecutiveFailures
      invariant GiveUpPoint(polls, 1) == GiveUpPoint(polls, i + 1)
      invariant reactions == Reactions(polls, i)
    {
      StreakStep(polls, i);
      var reaction := Reaction(false, None);
      match polls[i] {
        case StatusRead =>
          consecutiveFailures := 0;
        case NoStatus =>
        case StatusFailed(_) =>
          consecutiveFailures := consecutiveFailures + 1;
          var notice := if consecutiveFailures % 2 == 0 then Some(consecutiveFailures) else None;
          reaction := Reaction(consecutiveFailures % 3 == 0, notice);
      }
      assert consecutiveFailures == Streak(polls, i + 1);
      assert reaction == ReactionTo(polls[i], consecutiveFailures);
      reactions := reactions + [reaction];
      if consecutiveFailures >= MaxConsecutiveFailures {
        if fileLength > 0 {
          ending := FileKept;
        } else {
          ending := GaveUp(GaveUpMessage(polls[i].error));
        }
        return;
      }
      i := i + 1;
    }
  }

  /** Eight failed queries in a row from the start end the monitor after
      the eighth, having dropped the manager after the third and sixth. */
  lemma EightFailuresEndIt(polls: seq<Poll>)
    requires |polls| >= 8 && forall k :: 0 <= k < 8 ==> polls[k].StatusFailed?
    ensures GiveUpPoint(polls, 1) == Some(8)
    ensures forall k :: 0 <= k < 8 ==> (ReactionTo(polls[k], Streak(polls, k + 1)).resetManager <==> k == 2 || k == 5)
  {
    StreakOfFailures(polls, 8);
    assert Streak(polls, 8) == 8;
    forall k | 0 <= k < 8
      ensures (ReactionTo(polls[k], Streak(polls, k + 1)).resetManager <==> k == 2 || k == 5)
    {
      assert Streak(polls, k + 1) == k + 1;
      assert k == 0 || k == 1 || k == 2 || k == 3 || k == 4 || k == 5 || k == 6 || k == 7;
    }
  }

  /** Over a run of failures from the start, the counter counts them. */
  lemma {:induction false} StreakOfFailures(polls: seq<Poll>, n: nat)
    requires n <= |polls| && forall k :: 0 <= k < n ==> polls[k].StatusFailed?
    ensures forall m :: 0 <= m <= n ==> Streak(polls, m) == m
  {
    if n > 0 {
      StreakOfFailures(polls, n - 1);
    }
  }

  /** Giving up takes at least eight failed polls in all. */
  lemma {:induction false} GivingUpTakesEightFailures(polls: seq<Poll>, n: nat)
    requires n <= |polls| && Streak(polls, n) == MaxConsecutiveFailures
    ensures Failures(polls[..n]) >= MaxConsecutiveFailures
  {
    StreakAtMostFailures(polls, n);
  }

  function Failures(polls: seq<Poll>): nat {
    if polls == [] then 0 else Failures(polls[..|polls| - 1]) + (if polls[|polls| - 1].StatusFailed? then 1 else 0)
  }

  lemma {:induction false} StreakAtMostFailures(polls: seq<Poll>, n: nat)
    requires n <= |polls|
    ensures Streak(polls, n) <= Failures(polls[..n])
  {
    if n > 0 {
      assert polls[..n][..n - 1] == polls[..n - 1];
      StreakAtMostFailures(polls, n - 1);
    }
  }

  // ---------------------------------------------------------------------
  // The monitor as written: a lock taken twice
  // ---------------------------------------------------------------------

  /** Whether the `n`-th poll locks `ARIA2_RPC_MANAGER` again: a missing
      task goes through `get_rpc_manager`, and every third failure in a
      row locks the manager to drop it. */
  predicate Relocks(polls: seq<Poll>, n: nat)
    requires 1 <= n <= |polls|
  {
    polls[n - 1].NoStatus? || (polls[n - 1].StatusFailed? && Streak(polls, n) % 3 == 0)
  }

  /** The first poll, from `from` on, that locks the manager again. */
  function RelockPoint(polls: seq<Poll>, from: nat): (r: Option<nat>)
    requires 1 <= from
    ensures r.Some? ==> from <= r.value <= |polls| && Relocks(polls, r.value)
                        && forall n :: from <= n < r.value ==> !Relocks(polls, n)
    ensures r.None? ==> forall n :: from <= n <= |polls| ==> !Relocks(polls, n)
    decreases |polls| + 1 - from
  {
    if from > |polls| then None
    else if Relocks(polls, from) then Some(from)
    else RelockPoint(polls, from + 1)
  }

  /** The counter part of the monitor loop as written. The thread keeps
      the guard of `ARIA2_RPC_MANAGER` for the whole loop, because the
      manager it polls with borrows from it; a poll that locks the manager
      again never returns, since `std::sync::Mutex` is not re-entrant. The
      check against the limit of eight is never reached. */
  method WatchStatusAsWritten(polls: seq<Poll>) returns (reactions: seq<Reaction>, ending: Ending)
    ensures ending == if RelockPoint(polls, 1).Some? then Blocked else Watching
    ensures ending.Blocked? ==> |reactions| == RelockPoint(polls, 1).value - 1
    ensures ending.Watching? ==> |reactions| == |polls|
    ensures reactions == Reactions(polls, |reactions|)
  {
    var consecutiveFailures := 0;
    reactions := [];
    ending := Watching;
    var i := 0;
    while i < |polls|
      invariant 0 <= i <= |polls|
      invariant consecutiveFailures == Streak(polls, i) < 3
      invariant RelockPoint(polls, 1) == RelockPoint(polls, i + 1)
      invariant reactions == Reactions(polls, i)
    {
      var reaction := Reaction(false, None);
      match polls[i] {
        case StatusRead =>
          consecutiveFailures := 0;
        case NoStatus =>
          assert Relocks(polls, i + 1);
          ending := Blocked;
          return;
        case StatusFailed(_) =>
          consecutiveFailures := consecutiveFailures + 1;
          if consecutiveFailures % 3 == 0 {
            assert Relocks(polls, i + 1);
            ending := Blocked;
            return;
          }
          var notice := if consecutiveFailures % 2 == 0 then Some(consecutiveFailures) else None;
          reaction := Reaction(false, notice);
      }
      assert !Relocks(polls, i + 1);
      reactions := reactions + [reaction];
      if consecutiveFailures >= MaxConsecutiveFailures {
        assert false;
      }
      i := i + 1;
    }
  }

  /** Until the manager is locked again, fewer than three failures are in a row. */
  lemma {:induction false} StreakBelowThreeUntilRelock(polls: seq<Poll>, n: nat)
    requires n <= |polls| && forall m :: 1 <= m <= n ==> !Relocks(polls, m)
    ensures Streak(polls, n) < 3
  {
    if n > 0 {
      StreakBelowThreeUntilRelock(polls, n - 1);
      assert !Relocks(polls, n);
    }
  }

  /** As written, every run of polls the corrected monitor gives up on
      blocks the thread earlier. */
  lemma BlocksBeforeGivingUp(polls: seq<Poll>)
    requires GiveUpPoint(polls, 1).Some?
    ensures RelockPoint(polls, 1).Some? && RelockPoint(polls, 1).value < GiveUpPoint(polls, 1).value
  {
    var g := GiveUpPoint(polls, 1).value;
    match RelockPoint(polls, 1)
    case None =>
      StreakBelowThreeUntilRelock(polls, g);
    case Some(b) =>
      if b > g {
        StreakBelowThreeUntilRelock(polls, g);
      } else if b == g {
        StreakBelowThreeUntilRelock(polls, g - 1);
      }
  }

  /** Three failed queries in a row from the start block the thread at the
      third, where the corrected monitor drops the manager and goes on. */
  lemma ThreeFailuresBlock(polls: seq<Poll>)
    requires |polls| >= 3 && forall k :: 0 <= k < 3 ==> polls[k].StatusFailed?
    ensures RelockPoint(polls, 1) == Some(3)
    ensures ReactionTo(polls[2], Streak(polls, 3)).resetManager
  {
    StreakOfFailures(polls, 3);
    assert !Relocks(polls, 1) && !Relocks(polls, 2) && Relocks(polls, 3);
    assert RelockPoint(polls, 3) == Some(3);
  }
}
