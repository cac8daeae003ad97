/** The reconciliation pass (`deleteRemovedFilesFromS3`): a second walk of
    the local tree collects the keys of all local files, then every listed
    object whose key is not among them is deleted. The local key set is built
    without consulting the ignore patterns. */
module Reconcile {
  import opened SyncTypes
  import opened Walk

  /** What `ListObjectsV2Pages` delivered: the keys of each page fetched, in
      order, and whether fetching stopped on an error after those pages. */
  datatype Listing = Listing(pages: seq<seq<string>>, failed: bool)

  /** The keys the reconciler's walk collects: the normalised relative path
      of every non-directory item, or the walk error. */
  function LocalKeys(onWindows: bool, items: seq<WalkItem>): (r: Result<set<string>>)
    ensures r.Err? ==> r.error == WalkFailed
  {
    if items == [] then Ok({})
    else
      match LocalKeys(onWindows, items[..|items| - 1])
      case Err(e) => Err(e)
      case Ok(keys) =>
        match items[|items| - 1]
        case WalkFailure => Err(WalkFailed)
        case Visit(relPath, isDir, _) =>
          Ok(if isDir then keys else keys + {ObjectKey(relPath, onWindows)})
  }

  /** The walk fails exactly when some item is a failure; otherwise the key
      set holds exactly the keys of the walked files. */
  lemma {:induction false} LocalKeysExactly(onWindows: bool, items: seq<WalkItem>)
    ensures LocalKeys(onWindows, items).Err? <==> exists i :: 0 <= i < |items| && items[i].WalkFailure?
    ensures LocalKeys(onWindows, items).Ok? ==>
      forall k :: k in LocalKeys(onWindows, items).value <==>
        exists i :: 0 <= i < |items| && items[i].Visit? && !items[i].isDir
                    && ObjectKey(items[i].relPath, onWindows) == k
  {
    if items != [] {
      var init := items[..|items| - 1];
      LocalKeysExactly(onWindows, init);
      assert forall i :: 0 <= i < |init| ==> items[i] == init[i];
      if LocalKeys(onWindows, items).Ok? {
        var keys := LocalKeys(onWindows, items).value;
        forall k | k in keys
          ensures exists i :: 0 <= i < |items| && items[i].Visit? && !items[i].isDir
                              && ObjectKey(items[i].relPath, onWindows) == k
        {
          if k in LocalKeys(onWindows, init).value {
            var i :| 0 <= i < |init| && init[i].Visit? && !init[i].isDir
                     && ObjectKey(init[i].relPath, onWindows) == k;
            assert items[i] == init[i];
          } else {
            assert items[|items| - 1].Visit? && ObjectKey(items[|items| - 1].relPath, onWindows) == k;
          }
        }
      }
    }
  }

  /** The keys of all fetched pages, in listing order. */
  function Flatten(pages: seq<seq<string>>): seq<string>
  {
    if pages == [] then []
    else Flatten(pages[..|pages| - 1]) + pages[|pages| - 1]
  }

  /** Exactly the keys of the fetched pages are listed. */
  lemma {:induction false} FlattenExactly(pages: seq<seq<string>>)
    ensures forall k :: k in Flatten(pages) <==> exists p :: 0 <= p < |pages| && k in pages[p]
  {
    if pages != [] {
      var init, last := pages[..|pages| - 1], pages[|pages| - 1];
      FlattenExactly(init);
      forall k
        ensures k in Flatten(pages) <==> exists p :: 0 <= p < |pages| && k in pages[p]
      {
        if k in Flatten(pages) {
          if k in Flatten(init) {
            var p :| 0 <= p < |init| && k in init[p];
            assert pages[p] == init[p];
          } else {
            assert k in pages[|pages| - 1];
          }
        }
        if exists p :: 0 <= p < |pages| && k in pages[p] {
          var p :| 0 <= p < |pages| && k in pages[p];
          if p < |init| {
            assert init[p] == pages[p];
          }
        }
      }
    }
  }

  /** The deletes the pass issues for a listing, in listing order. */
  function DeleteRequests(local: set<string>, listed: seq<string>): (r: seq<string>)
    ensures |r| <= |listed|
  {
    if listed == [] then []
    else
      var last := listed[|listed| - 1];
      DeleteRequests(local, listed[..|listed| - 1]) + (if last in local then [] else [last])
  }

  /** One delete per listed key that is not a local key, and no other. */
  lemma {:induction false} DeleteRequestsExactly(local: set<string>, listed: seq<string>)
    ensures forall k :: k in DeleteRequests(local, listed) <==> k in listed && k !in local
  {
    if listed != [] {
      var init := listed[..|listed| - 1];
      DeleteRequestsExactly(local, init);
      assert listed == init + [listed[|listed| - 1]];
    }
  }

  /** Listed keys are handled one at a time and in listing order: the deletes
      for two consecutive runs of keys are those of the first followed by
      those of the second. */
  lemma {:induction false} DeleteRequestsAppend(local: set<string>, a: seq<string>, b: seq<string>)
    ensures DeleteRequests(local, a + b) == DeleteRequests(local, a) + DeleteRequests(local, b)
  {
    if b == [] {
      assert a + b == a;
    } else {
      var init := b[..|b| - 1];
      DeleteRequestsAppend(local, a, init);
      assert (a + b)[..|a + b| - 1] == a + init;
      assert (a + b)[|a + b| - 1] == b[|b| - 1];
    }
  }

  /** The deletes the store confirmed; only these are reported as deleted,
      and a failed delete is otherwise ignored. */
  function Confirmed(requested: seq<string>, deleteOk: string -> bool): (r: seq<string>)
    ensures |r| <= |requested|
  {
    if requested == [] then []
    else
      var last := requested[|requested| - 1];
      Confirmed(requested[..|requested| - 1], deleteOk) + (if deleteOk(last) then [last] else [])
  }

  /** A requested delete is reported exactly when the store confirmed it. */
  lemma {:induction false} ConfirmedExactly(requested: seq<string>, deleteOk: string -> bool)
    ensures forall k :: k in Confirmed(requested, deleteOk) <==> k in requested && deleteOk(k)
  {
    if requested != [] {
      var init := requested[..|requested| - 1];
      ConfirmedExactly(init, deleteOk);
      assert requested == init + [requested[|requested| - 1]];
    }
  }

  /** Each requested delete is reported independently, in request order. */
  lemma {:induction false} ConfirmedAppend(a: seq<string>, b: seq<string>, deleteOk: string -> bool)
    ensures Confirmed(a + b, deleteOk) == Confirmed(a, deleteOk) + Confirmed(b, deleteOk)
  {
    if b == [] {
      assert a + b == a;
    } else {
      var init := b[..|b| - 1];
      ConfirmedAppend(a, init, deleteOk);
      assert (a + b)[..|a + b| - 1] == a + init;
      assert (a + b)[|a + b| - 1] == b[|b| - 1];
    }
  }

  /** The error the pass returns: the walk error as it is, otherwise a
      listing failure wrapped as "failed to delete files from S3". Failed
      deletes never make it fail. */
  function ReconcileError(local: Result<set<string>>, listing: Listing): (r: Option<Error>)
    ensures local.Err? ==> r == Some(local.error)
    ensures local.Ok? ==> (r.Some? <==> listing.failed) && (r.Some? ==> r.value == ListFailed)
  {
    if local.Err? then Some(local.error)
    else if listing.failed then Some(ListFailed)
    else None
  }

  lemma DeleteRequestsStep(local: set<string>, listed: seq<string>, key: string)
    ensures DeleteRequests(local, listed + [key])
         == DeleteRequests(local, listed) + (if key in local then [] else [key])
  {
    assert (listed + [key])[..|listed|] == listed;
  }

  lemma ConfirmedStep(requested: seq<string>, deleteOk: string -> bool, key: string)
    ensures Confirmed(requested + [key], deleteOk)
         == Confirmed(requested, deleteOk) + (if deleteOk(key) then [key] else [])
  {
    assert (requested + [key])[..|requested|] == requested;
  }

  lemma FlattenStep(pages: seq<seq<string>>, p: nat)
    requires p < |pages|
    ensures Flatten(pages[..p + 1]) == Flatten(pages[..p]) + pages[p]
  {
    assert pages[..p + 1][..p] == pages[..p];
  }

  /** The first walk of `deleteRemovedFilesFromS3`: every non-directory
      item adds its key to the local set; the first failure ends the walk. */
  method CollectLocalFiles(onWindows: bool, items: seq<WalkItem>) returns (local: Result<set<string>>)
    ensures local == LocalKeys(onWindows, items)
  {
    var localFiles: set<string> := {};
    var i := 0;
    while i < |items|
      invariant 0 <= i <= |items|
      invariant LocalKeys(onWindows, items[..i]) == Ok(localFiles)
    {
      assert items[..i + 1][..i] == items[..i];
      match items[i] {
        case WalkFailure =>
          LocalKeysExactly(onWindows, items);
          assert items[i].WalkFailure?;
          return Err(WalkFailed);
        case Visit(relPath, isDir, _) =>
          if !isDir {
            localFiles := localFiles + {ObjectKey(relPath, onWindows)};
          }
      }
      i := i + 1;
    }
    assert items[..i] == items;
    return Ok(localFiles);
  }

  /** One page of the listing callback of `deleteRemovedFilesFromS3`: a
      delete is issued for each key of the page missing locally, after those
      of the pages before it (`before` holds their keys). */
  method DeletePage(localFiles: set<string>, ghost before: seq<string>, page: seq<string>,
                    deleteOk: string -> bool, requested0: seq<string>, deleted0: seq<string>)
    returns (requested: seq<string>, deleted: seq<string>)
    requires requested0 == DeleteRequests(localFiles, before)
    requires deleted0 == Confirmed(requested0, deleteOk)
    ensures requested == DeleteRequests(localFiles, before + page)
    ensures deleted == Confirmed(requested, deleteOk)
  {
    requested, deleted := requested0, deleted0;
    var j := 0;
    assert before + page[..j] == before;
    while j < |page|
      invariant 0 <= j <= |page|
      invariant requested == DeleteRequests(localFiles, before + page[..j])
      invariant deleted == Confirmed(requested, deleteOk)
    {
      var key := page[j];
      assert before + page[..j + 1] == (before + page[..j]) + [key];
      DeleteRequestsStep(localFiles, before + page[..j], key);
      if key !in localFiles {
        var ok := deleteOk(key);
        ConfirmedStep(requested, deleteOk, key);
        requested := requested + [key];
        if ok {
          deleted := deleted + [key];
        }
      }
      j := j + 1;
    }
    assert page[..j] == page;
  }

  /** The listing callback of `deleteRemovedFilesFromS3`, over every page
      fetched: a delete is issued for each listed key missing locally, and
      its outcome only decides whether it is reported as deleted. */
  method IssueDeletes(localFiles: set<string>, pages: seq<seq<string>>, deleteOk: string -> bool)
    returns (requested: seq<string>, deleted: seq<string>)
    ensures requested == DeleteRequests(localFiles, Flatten(pages))
    ensures deleted == Confirmed(requested, deleteOk)
  {
    requested, deleted := [], [];
    var p := 0;
    while p < |pages|
      invariant 0 <= p <= |pages|
      invariant requested == DeleteRequests(localFiles, Flatten(pages[..p]))
      invariant deleted == Confirmed(requested, deleteOk)
    {
      FlattenStep(pages, p);
      requested, deleted := DeletePage(localFiles, Flatten(pages[..p]), pages[p], deleteOk,
                                       requested, deleted);
      p := p + 1;
    }
    assert pages[..p] == pages;
  }

  /** `deleteRemovedFilesFromS3`: the walk error is returned before anything
      is listed; otherwise the deletes are issued page by page, so those for
      pages fetched before a listing failure are still issued, and then a
      listing failure is reported. `requested` is the sequence of
      DeleteObject calls, `deleted` those reported as deleted. */
  method DeleteRemovedFilesFromS3(onWindows: bool, items: seq<WalkItem>, listing: Listing,
                                  deleteOk: string -> bool)
    returns (err: Option<Error>, requested: seq<string>, deleted: seq<string>)
    ensures err == ReconcileError(LocalKeys(onWindows, items), listing)
    ensures LocalKeys(onWindows, items).Err? ==> requested == []
    ensures LocalKeys(onWindows, items).Ok? ==>
      requested == DeleteRequests(LocalKeys(onWindows, items).value, Flatten(listing.pages))
    ensures deleted == Confirmed(requested, deleteOk)
  {
    var local := CollectLocalFiles(onWindows, items);
    if local.Err? {
      return Some(local.error), [], [];
    }
    requested, deleted := IssueDeletes(local.value, listing.pages, deleteOk);
    if listing.failed {
      err := Some(ListFailed);
    } else {
      err := None;
    }
  }

  /** The cases of main_unit_test.go's deleteRemovedFilesFromS3 suite: only
      the listed keys without a local file are deleted, nested keys
      included, and a listing failure fails the pass. */
  lemma DeleteExamples()
    ensures DeleteRequests({"keep.txt"}, ["keep.txt", "delete.txt", "old.txt"]) == ["delete.txt", "old.txt"]
    ensures DeleteRequests({"file1.txt", "file2.txt"}, ["file1.txt", "file2.txt"]) == []
    ensures DeleteRequests({"file.txt"}, []) == []
    ensures var walk := [Visit(".", true, 0), Visit("dir1", true, 0), Visit("dir1/file1.txt", false, 8),
                         Visit("dir2", true, 0), Visit("dir2/subdir", true, 0),
                         Visit("dir2/subdir/file2.txt", false, 8)];
      LocalKeys(false, walk) == Ok({"dir1/file1.txt", "dir2/subdir/file2.txt"})
      && DeleteRequests(LocalKeys(false, walk).value,
                        ["dir1/file1.txt", "dir2/subdir/file2.txt", "dir3/old.txt"]) == ["dir3/old.txt"]
    ensures ReconcileError(LocalKeys(false, [Visit(".", true, 0)]), Listing([], true)) == Some(ListFailed)
  {
    var listed := ["keep.txt", "delete.txt", "old.txt"];
    assert listed[..2] == ["keep.txt", "delete.txt"];
    assert listed[..2][..1] == ["keep.txt"];
    var two := ["file1.txt", "file2.txt"];
    assert two[..1] == ["file1.txt"];
    var walk := [Visit(".", true, 0), Visit("dir1", true, 0), Visit("dir1/file1.txt", false, 8),
                 Visit("dir2", true, 0), Visit("dir2/subdir", true, 0),
                 Visit("dir2/subdir/file2.txt", false, 8)];
    assert LocalKeys(false, walk[..1]) == Ok({});
    assert walk[..2][..1] == walk[..1];
    assert LocalKeys(false, walk[..2]) == Ok({});
    assert walk[..3][..2] == walk[..2];
    assert walk[..3][2] == Visit("dir1/file1.txt", false, 8);
    assert ObjectKey("dir1/file1.txt", false) == "dir1/file1.txt";
    var s1: set<string> := {} + {ObjectKey("dir1/file1.txt", false)};
    assert s1 == {"dir1/file1.txt"};
    assert LocalKeys(false, walk[..3]) == Ok({"dir1/file1.txt"});
    assert walk[..4][..3] == walk[..3];
    assert LocalKeys(false, walk[..4]) == Ok({"dir1/file1.txt"});
    assert walk[..5][..4] == walk[..4];
    assert LocalKeys(false, walk[..5]) == Ok({"dir1/file1.txt"});
    assert walk[..5] == walk[..|walk| - 1];
    assert ObjectKey("dir2/subdir/file2.txt", false) == "dir2/subdir/file2.txt";
    var s2: set<string> := {"dir1/file1.txt"} + {ObjectKey("dir2/subdir/file2.txt", false)};
    assert s2 == {"dir1/file1.txt", "dir2/subdir/file2.txt"};
    assert LocalKeys(false, walk) == Ok({"dir1/file1.txt", "dir2/subdir/file2.txt"});
    var nested := ["dir1/file1.txt", "dir2/subdir/file2.txt", "dir3/old.txt"];
    assert nested[..2][..1] == ["dir1/file1.txt"];
    assert [Visit(".", true, 0)][..0] == [];
  }
}
