/** The upload phase (`uploadDirectoryToS3`), run sequentially: the walk
    queues an upload task for every changed, non-ignored file, then the queue
    is drained and every failed upload is collected. In the Go code five
    workers drain the channel while the walk still fills it; because no
    decision of the walk depends on an upload, running the walk to its end
    and then draining the queue in order uploads the same files and fails the
    same way. */
module Pipeline {
  import opened SyncTypes
  import opened Walk
  import opened Ignore
  import opened ChangeDetection
  import opened Upload

  /** What the outside world answers for each object key: the HEAD result,
      the local stat, the local MD5, whether the file opens for upload and
      how its transfer would end. */
  datatype Env = Env(
    head: string -> HeadResult,
    stat: string -> StatResult,
    hash: string -> HashResult,
    openOk: string -> bool,
    transport: string -> Transport)

  /** A queued upload: the object key and the size the walk reported. */
  datatype UploadTask = UploadTask(key: string, size: int)

  /** What the walk callback does with one item. */
  datatype Step = Skip | Queue(task: UploadTask) | Abort(error: Error)

  /** The queue the walk produced and the error that stopped it, if any. */
  datatype ScanResult = ScanResult(tasks: seq<UploadTask>, err: Option<Error>)

  /** The walk callback of `uploadDirectoryToS3` on one item: directories
      and ignored keys are skipped, a failure or a change-detection error
      stops the walk, and a changed file is queued. */
  function WalkStep(patterns: seq<string>, onWindows: bool, env: Env, item: WalkItem): Step
  {
    match item
    case WalkFailure => Abort(WalkFailed)
    case Visit(relPath, isDir, size) =>
      if isDir then Skip
      else
        var key := ObjectKey(relPath, onWindows);
        if ShouldIgnore(patterns, key) then Skip
        else
          match FileChangedOnS3(env.head(key), env.stat(key), env.hash(key))
          case Err(e) => Abort(e)
          case Ok(changed) => if changed then Queue(UploadTask(key, size)) else Skip
  }

  /** A task is queued only for a file (not a directory) whose key, the
      normalised relative path, is not ignored and whose change detection
      answered "upload"; the task carries the size the walk reported. An
      abort comes only from a walk failure or a change-detection error. */
  lemma WalkStepQueuesOnlyChanged(patterns: seq<string>, onWindows: bool, env: Env, item: WalkItem)
    ensures var s := WalkStep(patterns, onWindows, env, item);
      s.Queue? <==>
        item.Visit? && !item.isDir && !ShouldIgnore(patterns, ObjectKey(item.relPath, onWindows))
        && FileChangedOnS3(env.head(ObjectKey(item.relPath, onWindows)),
                           env.stat(ObjectKey(item.relPath, onWindows)),
                           env.hash(ObjectKey(item.relPath, onWindows))) == Ok(true)
    ensures var s := WalkStep(patterns, onWindows, env, item);
      s.Queue? ==> s.task == UploadTask(ObjectKey(item.relPath, onWindows), item.size)
    ensures var s := WalkStep(patterns, onWindows, env, item);
      s.Abort? <==>
        item.WalkFailure?
        || (!item.isDir && !ShouldIgnore(patterns, ObjectKey(item.relPath, onWindows))
            && FileChangedOnS3(env.head(ObjectKey(item.relPath, onWindows)),
                               env.stat(ObjectKey(item.relPath, onWindows)),
                               env.hash(ObjectKey(item.relPath, onWindows))).Err?)
  {
  }

  /** How the callback's answer on one item combines with the walk of the
      items after it. */
  function Advance(s: Step, rest: ScanResult): ScanResult
  {
    match s
    case Abort(e) => ScanResult([], Some(e))
    case Skip => rest
    case Queue(t) => ScanResult([t] + rest.tasks, rest.err)
  }

  /** The whole walk: items are handled in order until one aborts it. */
  function Scan(patterns: seq<string>, onWindows: bool, env: Env, items: seq<WalkItem>): (r: ScanResult)
    ensures |r.tasks| <= |items|
  {
    if items == [] then ScanResult([], None)
    else Advance(WalkStep(patterns, onWindows, env, items[0]), Scan(patterns, onWindows, env, items[1..]))
  }

  /** Every queued task was queued by the callback for some walked item. */
  lemma {:induction false} ScanTasksComeFromItems(patterns: seq<string>, onWindows: bool, env: Env,
                                                  items: seq<WalkItem>, t: UploadTask)
    requires t in Scan(patterns, onWindows, env, items).tasks
    ensures exists i :: 0 <= i < |items| && WalkStep(patterns, onWindows, env, items[i]) == Queue(t)
  {
    if WalkStep(patterns, onWindows, env, items[0]) != Queue(t) {
      ScanTasksComeFromItems(patterns, onWindows, env, items[1..], t);
      var i :| 0 <= i < |items[1..]| && WalkStep(patterns, onWindows, env, items[1..][i]) == Queue(t);
      assert items[i + 1] == items[1..][i];
    }
  }

  /** The walk ends in an error exactly when some item aborts it, and the
      error is that of the first such item. */
  lemma {:induction false} ScanErrorIsFirstAbort(patterns: seq<string>, onWindows: bool, env: Env,
                                                 items: seq<WalkItem>)
    ensures Scan(patterns, onWindows, env, items).err.None? <==>
      forall i :: 0 <= i < |items| ==> !WalkStep(patterns, onWindows, env, items[i]).Abort?
    ensures Scan(patterns, onWindows, env, items).err.Some? ==>
      exists i :: 0 <= i < |items|
        && WalkStep(patterns, onWindows, env, items[i]) == Abort(Scan(patterns, onWindows, env, items).err.value)
        && forall j :: 0 <= j < i ==> !WalkStep(patterns, onWindows, env, items[j]).Abort?
  {
    if items != [] {
      ScanErrorIsFirstAbort(patterns, onWindows, env, items[1..]);
      assert forall i :: 1 <= i < |items| ==> items[i] == items[1..][i - 1];
      var r := Scan(patterns, onWindows, env, items);
      if r.err.Some? && !WalkStep(patterns, onWindows, env, items[0]).Abort? {
        var i :| 0 <= i < |items[1..]|
          && WalkStep(patterns, onWindows, env, items[1..][i]) == Abort(r.err.value)
          && forall j :: 0 <= j < i ==> !WalkStep(patterns, onWindows, env, items[1..][j]).Abort?;
        assert WalkStep(patterns, onWindows, env, items[i + 1]) == Abort(r.err.value);
      }
    }
  }

  /** Every file the callback decided to upload before the first item that
      aborts the walk is queued, so also when the walk later fails. */
  lemma {:induction false} ScanQueuesEveryChange(patterns: seq<string>, onWindows: bool, env: Env,
                                                 items: seq<WalkItem>, i: nat)
    requires i < |items| && WalkStep(patterns, onWindows, env, items[i]).Queue?
    requires forall j :: 0 <= j < i ==> !WalkStep(patterns, onWindows, env, items[j]).Abort?
    ensures WalkStep(patterns, onWindows, env, items[i]).task in Scan(patterns, onWindows, env, items).tasks
  {
    if i > 0 {
      assert !WalkStep(patterns, onWindows, env, items[0]).Abort?;
      forall j | 0 <= j < i - 1
        ensures !WalkStep(patterns, onWindows, env, items[1..][j]).Abort?
      {
        assert items[1..][j] == items[j + 1];
      }
      assert items[1..][i - 1] == items[i];
      ScanQueuesEveryChange(patterns, onWindows, env, items[1..], i - 1);
    }
  }

  /** Nothing after an item that aborts the walk has any effect: no later
      file is queued and the error stays the same. */
  lemma {:induction false} ScanStopsAtAbort(patterns: seq<string>, onWindows: bool, env: Env,
                                            prefix: seq<WalkItem>, item: WalkItem, rest: seq<WalkItem>)
    requires WalkStep(patterns, onWindows, env, item).Abort?
    ensures Scan(patterns, onWindows, env, prefix + [item] + rest)
         == Scan(patterns, onWindows, env, prefix + [item])
  {
    if prefix == [] {
      assert (prefix + [item] + rest)[0] == item;
      assert (prefix + [item])[0] == item;
    } else {
      ScanStopsAtAbort(patterns, onWindows, env, prefix[1..], item, rest);
      assert (prefix + [item] + rest)[1..] == prefix[1..] + [item] + rest;
      assert (prefix + [item])[1..] == prefix[1..] + [item];
    }
  }

  /** One step of the walk: the scan of a suffix is decided by its first item. */
  lemma ScanFrom(patterns: seq<string>, onWindows: bool, env: Env, items: seq<WalkItem>, i: nat)
    requires i < |items|
    ensures Scan(patterns, onWindows, env, items[i..])
         == Advance(WalkStep(patterns, onWindows, env, items[i]), Scan(patterns, onWindows, env, items[i + 1..]))
  {
    assert items[i..][0] == items[i] && items[i..][1..] == items[i + 1..];
  }

  /** The upload of one queued task, as a worker performs it. */
  function TaskUpload(env: Env, task: UploadTask): Uploaded
  {
    UploadFileS3(task.size, env.openOk(task.key), env.transport(task.key))
  }

  /** The failures the workers collect while draining `tasks` in order: one
      entry per failed upload, naming the file and the cause. */
  function UploadFailures(env: Env, tasks: seq<UploadTask>): (errs: seq<Error>)
    ensures |errs| <= |tasks|
  {
    if tasks == [] then []
    else
      var last := tasks[|tasks| - 1];
      var result := TaskUpload(env, last);
      UploadFailures(env, tasks[..|tasks| - 1])
        + (if result.err.Some? then [UploadFailed(last.key, result.err.value)] else [])
  }

  /** No failure is lost and none is invented: the list is empty exactly when
      every task uploads, every entry names a queued task and that task's
      upload error, and every failed task has its entry. */
  lemma {:induction false} UploadFailuresExactly(env: Env, tasks: seq<UploadTask>)
    ensures UploadFailures(env, tasks) == [] <==> forall t :: t in tasks ==> TaskUpload(env, t).err.None?
    ensures forall e :: e in UploadFailures(env, tasks) ==>
      e.UploadFailed? && exists t :: t in tasks && t.key == e.path && TaskUpload(env, t).err == Some(e.cause)
    ensures forall t :: t in tasks && TaskUpload(env, t).err.Some? ==>
      UploadFailed(t.key, TaskUpload(env, t).err.value) in UploadFailures(env, tasks)
  {
    if tasks != [] {
      var init, last := tasks[..|tasks| - 1], tasks[|tasks| - 1];
      UploadFailuresExactly(env, init);
      assert tasks == init + [last];
      assert forall t :: t in tasks <==> t in init || t == last;
    }
  }

  /** The error `uploadDirectoryToS3` returns: the walk error first, then the
      collected upload failures, otherwise none. */
  function UploadPhaseError(walkErr: Option<Error>, failures: seq<Error>): (r: Option<Error>)
    ensures r.None? <==> walkErr.None? && failures == []
    ensures walkErr.Some? ==> r == walkErr
  {
    if walkErr.Some? then walkErr
    else if |failures| > 0 then Some(UploadErrors(failures))
    else None
  }

  /** One iteration of the walk loop: how the queue so far and the walk of
      the remaining items account for the whole walk after the next item. */
  lemma QueueStep(patterns: seq<string>, onWindows: bool, env: Env, items: seq<WalkItem>, i: nat,
                  queued: seq<UploadTask>)
    requires i < |items|
    requires Scan(patterns, onWindows, env, items).tasks == queued + Scan(patterns, onWindows, env, items[i..]).tasks
    requires Scan(patterns, onWindows, env, items).err == Scan(patterns, onWindows, env, items[i..]).err
    ensures var s := WalkStep(patterns, onWindows, env, items[i]);
      && (s.Abort? ==> Scan(patterns, onWindows, env, items) == ScanResult(queued, Some(s.error)))
      && (s.Skip? ==>
            Scan(patterns, onWindows, env, items).tasks == queued + Scan(patterns, onWindows, env, items[i + 1..]).tasks
            && Scan(patterns, onWindows, env, items).err == Scan(patterns, onWindows, env, items[i + 1..]).err)
      && (s.Queue? ==>
            Scan(patterns, onWindows, env, items).tasks
              == (queued + [s.task]) + Scan(patterns, onWindows, env, items[i + 1..]).tasks
            && Scan(patterns, onWindows, env, items).err == Scan(patterns, onWindows, env, items[i + 1..]).err)
  {
    ScanFrom(patterns, onWindows, env, items, i);
    AdvanceAppends(queued, WalkStep(patterns, onWindows, env, items[i]), Scan(patterns, onWindows, env, items[i + 1..]),
                   Scan(patterns, onWindows, env, items));
  }

  /** `Advance` after a queue prefix, case by case. */
  lemma AdvanceAppends(queued: seq<UploadTask>, s: Step, rest: ScanResult, whole: ScanResult)
    requires whole.tasks == queued + Advance(s, rest).tasks && whole.err == Advance(s, rest).err
    ensures s.Abort? ==> whole == ScanResult(queued, Some(s.error))
    ensures s.Skip? ==> whole.tasks == queued + rest.tasks && whole.err == rest.err
    ensures s.Queue? ==> whole.tasks == (queued + [s.task]) + rest.tasks && whole.err == rest.err
  {
    if s.Abort? {
      assert queued + [] == queued;
    } else if s.Queue? {
      assert queued + ([s.task] + rest.tasks) == (queued + [s.task]) + rest.tasks;
    }
  }

  /** The walk of `uploadDirectoryToS3`: the callback (`WalkStep`) runs on
      each item in order and pushes a task for every changed file, until an
      item aborts the walk. */
  method QueueTasks(patterns: seq<string>, onWindows: bool, items: seq<WalkItem>, env: Env)
    returns (walkErr: Option<Error>, queued: seq<UploadTask>)
    ensures queued == Scan(patterns, onWindows, env, items).tasks
    ensures walkErr == Scan(patterns, onWindows, env, items).err
  {
    queued := [];
    var i := 0;
    assert items[i..] == items;
    while i < |items|
      invariant 0 <= i <= |items|
      invariant Scan(patterns, onWindows, env, items).tasks
             == queued + Scan(patterns, onWindows, env, items[i..]).tasks
      invariant Scan(patterns, onWindows, env, items).err == Scan(patterns, onWindows, env, items[i..]).err
    {
      var step := WalkStep(patterns, onWindows, env, items[i]);
      QueueStep(patterns, onWindows, env, items, i, queued);
      if step.Abort? {
        return Some(step.error), queued;
      } else if step.Queue? {
        queued := queued + [step.task];
      }
      i := i + 1;
    }
    return None, queued;
  }

  /** The workers of `uploadDirectoryToS3`, one after the other: every queued
      task is uploaded, and each failure is appended to the error list. */
  method DrainQueue(env: Env, queued: seq<UploadTask>) returns (uploadErrors: seq<Error>)
    ensures uploadErrors == UploadFailures(env, queued)
  {
    uploadErrors := [];
    var j := 0;
    while j < |queued|
      invariant 0 <= j <= |queued|
      invariant uploadErrors == UploadFailures(env, queued[..j])
    {
      var task := queued[j];
      var result := UploadFileS3(task.size, env.openOk(task.key), env.transport(task.key));
      if result.err.Some? {
        uploadErrors := uploadErrors + [UploadFailed(task.key, result.err.value)];
      }
      assert queued[..j + 1][..j] == queued[..j];
      j := j + 1;
    }
    assert queued[..j] == queued;
  }

  /** `uploadDirectoryToS3`: the walk fills the task queue until the first
      error, then every queued task is uploaded, also when the walk failed.
      The walk error is reported in preference to upload failures; the phase
      succeeds exactly when the walk never aborted and every queued upload
      succeeded. */
  method UploadDirectoryToS3(patterns: seq<string>, onWindows: bool, items: seq<WalkItem>, env: Env)
    returns (err: Option<Error>, queued: seq<UploadTask>, uploadErrors: seq<Error>)
    ensures queued == Scan(patterns, onWindows, env, items).tasks
    ensures uploadErrors == UploadFailures(env, queued)
    ensures err == UploadPhaseError(Scan(patterns, onWindows, env, items).err, uploadErrors)
    ensures err.None? <==>
      (forall i :: 0 <= i < |items| ==> !WalkStep(patterns, onWindows, env, items[i]).Abort?)
      && (forall t :: t in queued ==> TaskUpload(env, t).err.None?)
  {
    var walkErr;
    walkErr, queued := QueueTasks(patterns, onWindows, items, env);
    uploadErrors := DrainQueue(env, queued);
    ScanErrorIsFirstAbort(patterns, onWindows, env, items);
    UploadFailuresExactly(env, queued);
    if walkErr.Some? {
      err := walkErr;
    } else if |uploadErrors| > 0 {
      err := Some(UploadErrors(uploadErrors));
    } else {
      err := None;
    }
  }
}
