/** One sync cycle (`syncDirectoryWithS3`): the upload phase, then, only if
    it succeeded, the reconciliation pass; and what the two phases together
    guarantee about the keys they touch. */
module Cycle {
  import opened SyncTypes
  import opened Walk
  import opened Ignore
  import opened Pipeline
  import opened Reconcile

  /** A file the upload phase queued is never deleted by a reconciliation
      pass that walks the same tree: its key is a local key. */
  lemma {:induction false} QueuedKeysAreNotDeleted(patterns: seq<string>, onWindows: bool, env: Env,
                                                   items: seq<WalkItem>, listed: seq<string>, t: UploadTask)
    requires t in Scan(patterns, onWindows, env, items).tasks
    requires LocalKeys(onWindows, items).Ok?
    ensures t.key !in DeleteRequests(LocalKeys(onWindows, items).value, listed)
  {
    ScanTasksComeFromItems(patterns, onWindows, env, items, t);
    var i :| 0 <= i < |items| && WalkStep(patterns, onWindows, env, items[i]) == Queue(t);
    WalkStepQueuesOnlyChanged(patterns, onWindows, env, items[i]);
    LocalKeysExactly(onWindows, items);
    assert t.key in LocalKeys(onWindows, items).value;
    DeleteRequestsExactly(LocalKeys(onWindows, items).value, listed);
  }

  /** The asymmetry between the two passes: an ignored local file is never
      uploaded, yet its key protects a remote object of the same key from
      deletion, since the reconciler's key set is not filtered. */
  lemma {:induction false} IgnoredFilesAreProtected(patterns: seq<string>, onWindows: bool, env: Env,
                                                    items: seq<WalkItem>, listed: seq<string>, i: nat)
    requires i < |items| && items[i].Visit? && !items[i].isDir
    requires ShouldIgnore(patterns, ObjectKey(items[i].relPath, onWindows))
    requires LocalKeys(onWindows, items).Ok?
    ensures WalkStep(patterns, onWindows, env, items[i]) == Skip
    ensures ObjectKey(items[i].relPath, onWindows) !in DeleteRequests(LocalKeys(onWindows, items).value, listed)
  {
    LocalKeysExactly(onWindows, items);
    assert ObjectKey(items[i].relPath, onWindows) in LocalKeys(onWindows, items).value;
    DeleteRequestsExactly(LocalKeys(onWindows, items).value, listed);
  }

  /** `syncDirectoryWithS3`: the reconciliation pass runs only when the upload
      phase returned no error, and then its result is the cycle's result.
      When both passes see the same tree, nothing uploaded in this cycle is
      deleted in it. */
  method SyncDirectoryWithS3(patterns: seq<string>, onWindows: bool, env: Env,
                             uploadWalk: seq<WalkItem>, reconcileWalk: seq<WalkItem>,
                             listing: Listing, deleteOk: string -> bool)
    returns (err: Option<Error>, queued: seq<UploadTask>, requested: seq<string>)
    ensures queued == Scan(patterns, onWindows, env, uploadWalk).tasks
    ensures var upErr := UploadPhaseError(Scan(patterns, onWindows, env, uploadWalk).err,
                                          UploadFailures(env, queued));
      upErr.Some? ==> err == upErr && requested == []
    ensures var upErr := UploadPhaseError(Scan(patterns, onWindows, env, uploadWalk).err,
                                          UploadFailures(env, queued));
      var local := LocalKeys(onWindows, reconcileWalk);
      upErr.None? ==>
        err == ReconcileError(local, listing)
        && requested == (if local.Ok? then DeleteRequests(local.value, Flatten(listing.pages)) else [])
    ensures uploadWalk == reconcileWalk ==> forall t :: t in queued ==> t.key !in requested
  {
    var uploadErrors;
    err, queued, uploadErrors := UploadDirectoryToS3(patterns, onWindows, uploadWalk, env);
    if err.Some? {
      requested := [];
      return;
    }
    var deleted;
    err, requested, deleted := DeleteRemovedFilesFromS3(onWindows, reconcileWalk, listing, deleteOk);
    if uploadWalk == reconcileWalk && LocalKeys(onWindows, reconcileWalk).Ok? {
      forall t | t in queued
        ensures t.key !in requested
      {
        QueuedKeysAreNotDeleted(patterns, onWindows, env, uploadWalk, Flatten(listing.pages), t);
      }
    }
  }
}
