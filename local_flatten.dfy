/** The local flattener (`getData_from_metadata`): turns the user's folder/file tree into the flat
    list of `(path, uuid, modified)` the reconciler compares. */
module LocalFlatten {

  import opened Wrappers
  import opened Json
  import opened Paths

  /** One file of the local flat list. The uuid is whatever the file node holds under `uuid`. */
  datatype LocalEntry = LocalEntry(path: string, uuid: Value, modified: bool)

  /** Keys the flattener passes over without looking at their value. */
  predicate Skipped(key: string) {
    key == "uuid" || key == "content" || key == "last-modifier"
  }

  /** On this side a file is an object carrying both `uuid` and `content`. */
  predicate IsLocalFile(v: Value) {
    Has(v, "uuid") && Has(v, "content")
  }

  /** `val.modified === true || val.modified === "true"`. */
  predicate ModifiedFlag(file: Value) {
    Get(file, "modified") == Some(Bool(true)) || Get(file, "modified") == Some(Str("true"))
  }

  function EntryOf(path: string, file: Value): LocalEntry
    requires IsLocalFile(file)
  {
    LocalEntry(path, Get(file, "uuid").value, ModifiedFlag(file))
  }

  /** The files found under the first `n` keys of object `v`, or the TypeError thrown when one of
      the values looked at is `null` (`"uuid" in null`). */
  function FilesUpTo(v: Value, base: string, n: nat): Result<seq<LocalEntry>>
    requires v.Obj? && n <= |v.fields|
    decreases v, n
  {
    if n == 0 then Ok([])
    else
      match FilesUpTo(v, base, n - 1)
      case TypeError => TypeError
      case Ok(pre) =>
        match FieldFiles(v, base, n - 1)
        case TypeError => TypeError
        case Ok(xs) => Ok(pre + xs)
  }

  /** What the key at position `k` of object `v` contributes. */
  function FieldFiles(v: Value, base: string, k: nat): Result<seq<LocalEntry>>
    requires v.Obj? && k < |v.fields|
    decreases v, k
  {
    var f := v.fields[k];
    var path := JoinPath(base, f.key);
    if Skipped(f.key) then Ok([])
    else if f.val.Null? then TypeError
    else if !f.val.Obj? then Ok([])
    else if IsLocalFile(f.val) then Ok([EntryOf(path, f.val)])
    else FilesUpTo(f.val, path, |f.val.fields|)
  }

  /** The flat list of the tree `v` whose keys are joined below `base`. */
  function Flatten(v: Value, base: string): Result<seq<LocalEntry>> {
    if v.Obj? then FilesUpTo(v, base, |v.fields|) else Ok([])
  }

  /** getData_from_metadata(obj, path) */
  method GetDataFromMetadata(obj: Value, path: string) returns (r: Result<seq<LocalEntry>>)
    ensures r == Flatten(obj, path)
    decreases obj
  {
    if !obj.Obj? {
      return Ok([]);
    }
    var files: seq<LocalEntry> := [];
    var i := 0;
    while i < |obj.fields|
      invariant 0 <= i <= |obj.fields|
      invariant FilesUpTo(obj, path, i) == Ok(files)
    {
      var key, val := obj.fields[i].key, obj.fields[i].val;
      ghost var pre := files;
      var x: seq<LocalEntry> := [];
      if !Skipped(key) {
        var currentPath := JoinPath(path, key);
        if val.Null? {
          ThrowPersists(obj, path, i + 1);
          return TypeError;
        }
        if val.Obj? {
          if IsLocalFile(val) {
            x := [EntryOf(currentPath, val)];
            files := files + x;
          } else {
            var sub := GetDataFromMetadata(val, currentPath);
            if sub.TypeError? {
              ThrowPersists(obj, path, i + 1);
              return TypeError;
            }
            x := sub.value;
            files := files + x;
          }
        }
      }
      assert FieldFiles(obj, path, i) == Ok(x) && files == pre + x;
      i := i + 1;
    }
    return Ok(files);
  }

  /** Once a key has thrown, the whole traversal throws. */
  lemma {:induction false} ThrowPersists(v: Value, base: string, n: nat)
    requires v.Obj? && n <= |v.fields|
    requires FilesUpTo(v, base, n) == TypeError
    ensures Flatten(v, base) == TypeError
    decreases |v.fields| - n
  {
    if n < |v.fields| {
      ThrowPersists(v, base, n + 1);
    }
  }

  /** The entry for the file reached from `v` by the field positions `idx`, when every step before
      the last goes through a non-file object under a key the flattener does not skip. */
  function LocalFileAt(v: Value, base: string, idx: seq<nat>): Option<LocalEntry>
    decreases |idx|
  {
    if |idx| == 0 || !v.Obj? || idx[0] >= |v.fields| then None
    else
      var f := v.fields[idx[0]];
      var path := JoinPath(base, f.key);
      if Skipped(f.key) || !f.val.Obj? then None
      else if IsLocalFile(f.val) then (if |idx| == 1 then Some(EntryOf(path, f.val)) else None)
      else LocalFileAt(f.val, path, idx[1..])
  }

  /** Every entry a key contributes is the entry of a file reached through that key. */
  lemma {:induction false} FieldFilesSound(v: Value, base: string, k: nat, xs: seq<LocalEntry>, e: LocalEntry)
    requires v.Obj? && k < |v.fields|
    requires FieldFiles(v, base, k) == Ok(xs) && e in xs
    ensures exists idx :: |idx| > 0 && idx[0] == k && LocalFileAt(v, base, idx) == Some(e)
    decreases v, k, 0
  {
    var f := v.fields[k];
    var path := JoinPath(base, f.key);
    if IsLocalFile(f.val) {
      assert LocalFileAt(v, base, [k]) == Some(e);
    } else {
      FilesUpToSound(f.val, path, |f.val.fields|, xs, e);
      var idx' :| |idx'| > 0 && idx'[0] < |f.val.fields| && LocalFileAt(f.val, path, idx') == Some(e);
      var idx := [k] + idx';
      assert idx[1..] == idx';
      assert LocalFileAt(v, base, idx) == Some(e);
    }
  }

  lemma {:induction false} FilesUpToSound(v: Value, base: string, n: nat, files: seq<LocalEntry>, e: LocalEntry)
    requires v.Obj? && n <= |v.fields|
    requires FilesUpTo(v, base, n) == Ok(files) && e in files
    ensures exists idx :: |idx| > 0 && idx[0] < n && LocalFileAt(v, base, idx) == Some(e)
    decreases v, n, 1
  {
    var pre := FilesUpTo(v, base, n - 1).value;
    var xs := FieldFiles(v, base, n - 1).value;
    assert files == pre + xs;
    if e in pre {
      FilesUpToSound(v, base, n - 1, pre, e);
      var idx :| |idx| > 0 && idx[0] < n - 1 && LocalFileAt(v, base, idx) == Some(e);
    } else {
      FieldFilesSound(v, base, n - 1, xs, e);
      var idx :| |idx| > 0 && idx[0] == n - 1 && LocalFileAt(v, base, idx) == Some(e);
    }
  }

  /** Every file reached through a key is among the entries that key contributes. */
  lemma {:induction false} FieldFilesComplete(v: Value, base: string, idx: seq<nat>, xs: seq<LocalEntry>, e: LocalEntry)
    requires v.Obj? && |idx| > 0 && idx[0] < |v.fields|
    requires FieldFiles(v, base, idx[0]) == Ok(xs)
    requires LocalFileAt(v, base, idx) == Some(e)
    ensures e in xs
    decreases v, idx[0], 0
  {
    var f := v.fields[idx[0]];
    if !IsLocalFile(f.val) {
      var path := JoinPath(base, f.key);
      assert LocalFileAt(f.val, path, idx[1..]) == Some(e);
      FilesUpToComplete(f.val, path, |f.val.fields|, idx[1..], xs, e);
    }
  }

  lemma {:induction false} FilesUpToComplete(v: Value, base: string, n: nat, idx: seq<nat>, files: seq<LocalEntry>, e: LocalEntry)
    requires v.Obj? && n <= |v.fields|
    requires FilesUpTo(v, base, n) == Ok(files)
    requires LocalFileAt(v, base, idx) == Some(e) && idx[0] < n
    ensures e in files
    decreases v, n, 1
  {
    var pre := FilesUpTo(v, base, n - 1).value;
    var xs := FieldFiles(v, base, n - 1).value;
    assert files == pre + xs;
    if idx[0] < n - 1 {
      FilesUpToComplete(v, base, n - 1, idx, pre, e);
    } else {
      FieldFilesComplete(v, base, idx, xs, e);
    }
  }

  /** `e` is the entry of some file reachable from `v`. */
  ghost predicate FileEntry(v: Value, base: string, e: LocalEntry) {
    exists idx :: LocalFileAt(v, base, idx) == Some(e)
  }

  /** The flat list holds exactly the entries of the files reachable through folders: an object
      holding both `uuid` and `content` is a file, reported under the `/`-join of the keys leading
      to it with its own `uuid` and its `modified` flag read as `true` or `"true"`; any other object
      is a folder; `uuid`, `content` and `last-modifier` keys are never descended into. */
  lemma FlattenExact(v: Value, base: string, files: seq<LocalEntry>)
    requires Flatten(v, base) == Ok(files)
    ensures forall e :: e in files <==> FileEntry(v, base, e)
  {
    forall e | e in files ensures FileEntry(v, base, e) {
      FilesUpToSound(v, base, |v.fields|, files, e);
      var idx :| |idx| > 0 && idx[0] < |v.fields| && LocalFileAt(v, base, idx) == Some(e);
    }
    forall e | FileEntry(v, base, e) ensures e in files {
      var idx :| LocalFileAt(v, base, idx) == Some(e);
      FilesUpToComplete(v, base, |v.fields|, idx, files, e);
    }
  }

  /** No `null` anywhere in the tree. */
  predicate NullFree(v: Value) {
    match v
    case Null => false
    case Obj(fields) => forall i :: 0 <= i < |fields| ==> NullFree(fields[i].val)
    case _ => true
  }

  lemma {:induction false} NullFreeUpTo(v: Value, base: string, n: nat)
    requires v.Obj? && n <= |v.fields| && NullFree(v)
    ensures FilesUpTo(v, base, n).Ok?
    decreases v, n
  {
    if n > 0 {
      NullFreeUpTo(v, base, n - 1);
      var f := v.fields[n - 1];
      if f.val.Obj? {
        NullFreeUpTo(f.val, JoinPath(base, f.key), |f.val.fields|);
      }
    }
  }

  /** A tree without `null` values is flattened without throwing. */
  lemma NullFreeFlattens(v: Value, base: string)
    requires NullFree(v)
    ensures Flatten(v, base).Ok?
  {
    if v.Obj? {
      NullFreeUpTo(v, base, |v.fields|);
    }
  }

  /** A `null` under a key that is not skipped throws, whatever follows it. */
  lemma NullChildThrows(v: Value, base: string, i: nat)
    requires v.Obj? && i < |v.fields| && v.fields[i].val.Null? && !Skipped(v.fields[i].key)
    ensures Flatten(v, base) == TypeError
  {
    if FilesUpTo(v, base, i).TypeError? {
      ThrowPersists(v, base, i);
    } else {
      ThrowPersists(v, base, i + 1);
    }
  }
}
