/** The directory walk both passes consume (`filepath.Walk` over the sync
    root) and the object key each visited file gets. */
module Walk {
  import opened Text

  /** One call of the walk callback, in walk order. `Visit` carries the path
      relative to the root (`filepath.Rel`), whether it is a directory and
      its size; `WalkFailure` stands for an error handed to the callback or a
      failing `filepath.Rel`. The root itself arrives as a directory. */
  datatype WalkItem =
    | Visit(relPath: string, isDir: bool, size: int)
    | WalkFailure

  /** The object key of a relative path: on Windows every `\` becomes `/`;
      elsewhere the relative path is used unchanged. */
  function ObjectKey(relPath: string, onWindows: bool): (key: string)
    ensures |key| == |relPath|
    ensures forall k :: 0 <= k < |relPath| ==>
      key[k] == (if onWindows && relPath[k] == '\\' then '/' else relPath[k])
    ensures onWindows ==> '\\' !in key
    ensures !onWindows ==> key == relPath
  {
    if onWindows then ReplaceChar(relPath, '\\', '/') else relPath
  }
}
