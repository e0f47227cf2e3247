/** The last-modified records and the queue items built from the user's tree
    (`generateLastModifiedMap`, `generateCacheArray`), and the `open` payload that pairs them. */
module Records {

  import opened Wrappers
  import opened Json
  import opened Paths

  /** One entry of the last-modified index, keyed by file path. */
  datatype Record = Record(name: string, lastModifier: Value, timestamp: int, uuidCache: Value)

  /** One element of the queue document's `queue_item` array; every item carries
      `push_status: "in-progress"`. A push carries the file's content; a tombstone carries
      `to_delete: true` and no content. `None` is a field the item does not have. */
  datatype QueueItem =
    | Push(content: Value, path: string, timestamp: int, uuidCache: Value,
           uuid: Option<Value>, modified: Option<Value>)
    | Tombstone(path: string, deletedUuid: string, modified: Option<Value>)

  /** On this side a file is an object holding both `content` and `last-modifier`. */
  predicate IsRecordFile(v: Value) {
    v.Obj? && Has(v, "content") && Has(v, "last-modifier")
  }

  /** `value.uuid_cache || crypto.randomUUID()`, the id source being `ids` from position `next`. */
  function UuidCacheOf(node: Value, ids: nat -> string, next: nat): Value {
    Or(Get(node, "uuid_cache"), Str(ids(next)))
  }

  /** The id source position after that expression: a fresh id is drawn only when needed. */
  function NextAfter(node: Value, next: nat): nat {
    if TruthyOpt(Get(node, "uuid_cache")) then next else next + 1
  }

  function RecordOf(key: string, node: Value, now: int, ids: nat -> string, next: nat): Record
    requires IsRecordFile(node)
  {
    Record(key, Get(node, "last-modifier").value, now, UuidCacheOf(node, ids, next))
  }

  /** What `generateLastModifiedMap` returns, with the position the id source has reached. */
  datatype Generated = Generated(records: map<string, Record>, next: nat)

  function LmUpTo(v: Value, base: string, n: nat, now: int, ids: nat -> string, next: nat): Generated
    requires v.Obj? && n <= |v.fields|
    decreases v, n
  {
    if n == 0 then Generated(map[], next)
    else
      var pre := LmUpTo(v, base, n - 1, now, ids, next);
      var x := LmField(v, base, n - 1, now, ids, pre.next);
      Generated(pre.records + x.records, x.next)
  }

  /** The records contributed by the key at position `k` of `v`: a file gives its own record, any
      other object the records of its subtree (`Object.assign`), anything else none. */
  function LmField(v: Value, base: string, k: nat, now: int, ids: nat -> string, next: nat): Generated
    requires v.Obj? && k < |v.fields|
    decreases v, k
  {
    var f := v.fields[k];
    var path := JoinPath(base, f.key);
    if IsRecordFile(f.val) then
      Generated(map[path := RecordOf(f.key, f.val, now, ids, next)], NextAfter(f.val, next))
    else if f.val.Obj? then LmUpTo(f.val, path, |f.val.fields|, now, ids, next)
    else Generated(map[], next)
  }

  function LastModifiedMap(tree: Value, base: string, now: int, ids: nat -> string, next: nat): Generated {
    if tree.Obj? then LmUpTo(tree, base, |tree.fields|, now, ids, next) else Generated(map[], next)
  }

  /** generateLastModifiedMap(tree, basePath), reading the clock as `now` and drawing fresh ids
      from `ids` starting at position `next`. */
  method GenerateLastModifiedMap(tree: Value, basePath: string, now: int, ids: nat -> string, next: nat)
    returns (result: map<string, Record>, next': nat)
    ensures Generated(result, next') == LastModifiedMap(tree, basePath, now, ids, next)
    decreases tree
  {
    result, next' := map[], next;
    if !tree.Obj? {
      return;
    }
    var i := 0;
    while i < |tree.fields|
      invariant 0 <= i <= |tree.fields|
      invariant LmUpTo(tree, basePath, i, now, ids, next) == Generated(result, next')
    {
      var key, value := tree.fields[i].key, tree.fields[i].val;
      var currentPath := JoinPath(basePath, key);
      ghost var pre, preNext := result, next';
      if IsRecordFile(value) {
        var uuidCache: Value;
        if TruthyOpt(Get(value, "uuid_cache")) {
          uuidCache := Get(value, "uuid_cache").value;
        } else {
          uuidCache := Str(ids(next'));
          next' := next' + 1;
        }
        var rec := Record(key, Get(value, "last-modifier").value, now, uuidCache);
        assert rec == RecordOf(key, value, now, ids, preNext) && next' == NextAfter(value, preNext);
        result := result[currentPath := rec];
        UpdateIsUnion(pre, currentPath, rec);
        LmStep(tree, basePath, i, now, ids, next, pre, preNext, map[currentPath := rec], next');
      } else if value.Obj? {
        var sub, subNext := GenerateLastModifiedMap(value, currentPath, now, ids, next');
        result, next' := result + sub, subNext;
        LmStep(tree, basePath, i, now, ids, next, pre, preNext, sub, next');
      } else {
        assert pre + map[] == pre;
        LmStep(tree, basePath, i, now, ids, next, pre, preNext, map[], next');
      }
      i := i + 1;
    }
  }

  lemma UpdateIsUnion<K, V>(m: map<K, V>, k: K, v: V)
    ensures m[k := v] == m + map[k := v]
  {
  }

  lemma LmStep(v: Value, base: string, i: nat, now: int, ids: nat -> string, next: nat,
               pre: map<string, Record>, preNext: nat, x: map<string, Record>, xNext: nat)
    requires v.Obj? && i < |v.fields|
    requires LmUpTo(v, base, i, now, ids, next) == Generated(pre, preNext)
    requires LmField(v, base, i, now, ids, preNext) == Generated(x, xNext)
    ensures LmUpTo(v, base, i + 1, now, ids, next) == Generated(pre + x, xNext)
  {
  }

  /** A file node of the tree: its path, its key and the node itself. */
  datatype FileNode = FileNode(path: string, key: string, node: Value)

  /** The file reached from `v` by the field positions `idx`, every step before the last going
      through an object that is not a file. */
  function FileAt(v: Value, base: string, idx: seq<nat>): (r: Option<FileNode>)
    ensures r.Some? ==> IsRecordFile(r.value.node)
    decreases |idx|
  {
    if |idx| == 0 || !v.Obj? || idx[0] >= |v.fields| then None
    else
      var f := v.fields[idx[0]];
      var path := JoinPath(base, f.key);
      if IsRecordFile(f.val) then (if |idx| == 1 then Some(FileNode(path, f.key, f.val)) else None)
      else if f.val.Obj? then FileAt(f.val, path, idx[1..])
      else None
  }

  ghost predicate FileAtPath(v: Value, base: string, p: string) {
    exists idx :: FileAt(v, base, idx).Some? && FileAt(v, base, idx).value.path == p
  }

  /** `r` is the record generated for `file`, its fresh id (if one was needed) drawn from positions
      `lo` up to `hi`. */
  predicate RecordFor(r: Record, file: FileNode, now: int, ids: nat -> string, lo: nat, hi: nat) {
    && IsRecordFile(file.node)
    && r.name == file.key
    && r.lastModifier == Get(file.node, "last-modifier").value
    && r.timestamp == now
    && (TruthyOpt(Get(file.node, "uuid_cache")) ==> r.uuidCache == Get(file.node, "uuid_cache").value)
    && (!TruthyOpt(Get(file.node, "uuid_cache")) ==> exists j :: lo <= j < hi && r.uuidCache == Str(ids(j)))
  }

  ghost predicate RecordedFile(v: Value, base: string, p: string, r: Record, now: int, ids: nat -> string, lo: nat, hi: nat) {
    exists idx :: FileAt(v, base, idx).Some? && FileAt(v, base, idx).value.path == p
      && RecordFor(r, FileAt(v, base, idx).value, now, ids, lo, hi)
  }

  /** The id source only moves forward. */
  lemma {:induction false} LmUpToNext(v: Value, base: string, n: nat, now: int, ids: nat -> string, next: nat)
    requires v.Obj? && n <= |v.fields|
    ensures next <= LmUpTo(v, base, n, now, ids, next).next
    decreases v, n, 1
  {
    if n > 0 {
      var mid := LmUpTo(v, base, n - 1, now, ids, next).next;
      LmUpToNext(v, base, n - 1, now, ids, next);
      LmFieldNext(v, base, n - 1, now, ids, mid);
      LmUpToNextUnfold(v, base, n, now, ids, next);
    }
  }

  /** The position reached after `n` keys is the one the key at `n - 1` reaches. */
  lemma LmUpToNextUnfold(v: Value, base: string, n: nat, now: int, ids: nat -> string, next: nat)
    requires v.Obj? && 0 < n <= |v.fields|
    ensures LmUpTo(v, base, n, now, ids, next).next
      == LmField(v, base, n - 1, now, ids, LmUpTo(v, base, n - 1, now, ids, next).next).next
  {
  }

  lemma {:induction false} LmFieldNext(v: Value, base: string, k: nat, now: int, ids: nat -> string, next: nat)
    requires v.Obj? && k < |v.fields|
    ensures next <= LmField(v, base, k, now, ids, next).next
    decreases v, k, 0
  {
    var f := v.fields[k];
    if !IsRecordFile(f.val) && f.val.Obj? {
      LmUpToNext(f.val, JoinPath(base, f.key), |f.val.fields|, now, ids, next);
    }
  }

  lemma RecordForWiden(r: Record, file: FileNode, now: int, ids: nat -> string, lo: nat, hi: nat, lo': nat, hi': nat)
    requires lo' <= lo && hi <= hi' && RecordFor(r, file, now, ids, lo, hi)
    ensures RecordFor(r, file, now, ids, lo', hi')
  {
    if !TruthyOpt(Get(file.node, "uuid_cache")) {
      var j :| lo <= j < hi && r.uuidCache == Str(ids(j));
    }
  }

  /** Every record a key contributes is the record of a file reached through that key. */
  lemma {:induction false} LmFieldSound(v: Value, base: string, k: nat, now: int, ids: nat -> string, next: nat, p: string)
    returns (idx: seq<nat>)
    requires v.Obj? && k < |v.fields|
    requires p in LmField(v, base, k, now, ids, next).records
    ensures |idx| > 0 && idx[0] == k && FileAt(v, base, idx).Some? && FileAt(v, base, idx).value.path == p
    ensures RecordFor(LmField(v, base, k, now, ids, next).records[p], FileAt(v, base, idx).value,
                      now, ids, next, LmField(v, base, k, now, ids, next).next)
    decreases v, k, 0
  {
    var f := v.fields[k];
    var path := JoinPath(base, f.key);
    if IsRecordFile(f.val) {
      idx := [k];
      assert FileAt(v, base, idx) == Some(FileNode(path, f.key, f.val));
      if !TruthyOpt(Get(f.val, "uuid_cache")) {
        assert next <= next < next + 1;
      }
    } else {
      var idx' := LmUpToSound(f.val, path, |f.val.fields|, now, ids, next, p);
      idx := [k] + idx';
      assert idx[1..] == idx';
    }
  }

  /** A path contributed by the last key counted has its record from that key. */
  lemma LmUpToSoundLast(v: Value, base: string, n: nat, now: int, ids: nat -> string, next: nat, p: string)
    returns (idx: seq<nat>)
    requires v.Obj? && 0 < n <= |v.fields|
    requires p in LmField(v, base, n - 1, now, ids, LmUpTo(v, base, n - 1, now, ids, next).next).records
    ensures |idx| > 0 && idx[0] < n && FileAt(v, base, idx).Some? && FileAt(v, base, idx).value.path == p
    ensures RecordFor(LmUpTo(v, base, n, now, ids, next).records[p], FileAt(v, base, idx).value,
                      now, ids, next, LmUpTo(v, base, n, now, ids, next).next)
    decreases v, n, 0
  {
    var pre := LmUpTo(v, base, n - 1, now, ids, next);
    var x := LmField(v, base, n - 1, now, ids, pre.next);
    LmUpToNext(v, base, n - 1, now, ids, next);
    LmStep(v, base, n - 1, now, ids, next, pre.records, pre.next, x.records, x.next);
    var g := LmUpTo(v, base, n, now, ids, next);
    assert g == Generated(pre.records + x.records, x.next);
    assert g.records[p] == x.records[p];
    idx := LmFieldSound(v, base, n - 1, now, ids, pre.next, p);
    RecordForWiden(x.records[p], FileAt(v, base, idx).value, now, ids, pre.next, x.next, next, x.next);
  }

  lemma {:induction false} LmUpToSound(v: Value, base: string, n: nat, now: int, ids: nat -> string, next: nat, p: string)
    returns (idx: seq<nat>)
    requires v.Obj? && n <= |v.fields|
    requires p in LmUpTo(v, base, n, now, ids, next).records
    ensures |idx| > 0 && idx[0] < n && FileAt(v, base, idx).Some? && FileAt(v, base, idx).value.path == p
    ensures RecordFor(LmUpTo(v, base, n, now, ids, next).records[p], FileAt(v, base, idx).value,
                      now, ids, next, LmUpTo(v, base, n, now, ids, next).next)
    decreases v, n, 1
  {
    var pre := LmUpTo(v, base, n - 1, now, ids, next);
    var x := LmField(v, base, n - 1, now, ids, pre.next);
    if p in x.records {
      idx := LmUpToSoundLast(v, base, n, now, ids, next, p);
    } else {
      LmFieldNext(v, base, n - 1, now, ids, pre.next);
      LmStep(v, base, n - 1, now, ids, next, pre.records, pre.next, x.records, x.next);
      var g := LmUpTo(v, base, n, now, ids, next);
      assert g == Generated(pre.records + x.records, x.next);
      assert p in pre.records && g.records[p] == pre.records[p];
      idx := LmUpToSound(v, base, n - 1, now, ids, next, p);
      RecordForWiden(pre.records[p], FileAt(v, base, idx).value, now, ids, next, pre.next, next, x.next);
    }
  }

  /** Every file reached through a key has a record among those the key contributes. */
  lemma {:induction false} LmFieldComplete(v: Value, base: string, idx: seq<nat>, now: int, ids: nat -> string, next: nat)
    requires v.Obj? && |idx| > 0 && idx[0] < |v.fields| && FileAt(v, base, idx).Some?
    ensures FileAt(v, base, idx).value.path in LmField(v, base, idx[0], now, ids, next).records
    decreases v, idx[0], 0
  {
    var f := v.fields[idx[0]];
    if !IsRecordFile(f.val) {
      LmUpToComplete(f.val, JoinPath(base, f.key), |f.val.fields|, idx[1..], now, ids, next);
    }
  }

  lemma {:induction false} LmUpToComplete(v: Value, base: string, n: nat, idx: seq<nat>, now: int, ids: nat -> string, next: nat)
    requires v.Obj? && n <= |v.fields| && FileAt(v, base, idx).Some? && idx[0] < n
    ensures FileAt(v, base, idx).value.path in LmUpTo(v, base, n, now, ids, next).records
    decreases v, n, 1
  {
    var pre := LmUpTo(v, base, n - 1, now, ids, next);
    if idx[0] < n - 1 {
      LmUpToComplete(v, base, n - 1, idx, now, ids, next);
    } else {
      LmFieldComplete(v, base, idx, now, ids, pre.next);
    }
  }

  /** The generated index holds exactly one record per file path (a file being an object with both
      `content` and `last-modifier`; folders get none), and each record is the one built for a file
      at that path: its `_name` is the file's key, its `last-modifier` is copied from the node, its
      timestamp is the clock reading, and its `uuid_cache` is the node's own `uuid_cache` when that is
      truthy and otherwise an id freshly drawn during this call. */
  lemma LastModifiedMapExact(tree: Value, base: string, now: int, ids: nat -> string, next: nat)
    ensures var g := LastModifiedMap(tree, base, now, ids, next);
      && (forall p :: p in g.records <==> FileAtPath(tree, base, p))
      && (forall p :: p in g.records ==> RecordedFile(tree, base, p, g.records[p], now, ids, next, g.next))
  {
    var g := LastModifiedMap(tree, base, now, ids, next);
    forall p | p in g.records
      ensures FileAtPath(tree, base, p) && RecordedFile(tree, base, p, g.records[p], now, ids, next, g.next)
    {
      var idx := LmUpToSound(tree, base, |tree.fields|, now, ids, next, p);
    }
    forall p | FileAtPath(tree, base, p) ensures p in g.records {
      var idx :| FileAt(tree, base, idx).Some? && FileAt(tree, base, idx).value.path == p;
      LmUpToComplete(tree, base, |tree.fields|, idx, now, ids, next);
    }
  }

  /** A file's path ends with its key: so a record's `_name` is the last segment of its path when
      the key holds no separator. */
  lemma {:induction false} FileAtPathEndsWithKey(v: Value, base: string, idx: seq<nat>)
    requires FileAt(v, base, idx).Some?
    ensures NoSeparator(FileAt(v, base, idx).value.key) ==>
      var parts := Split(FileAt(v, base, idx).value.path);
      parts[|parts| - 1] == FileAt(v, base, idx).value.key
    decreases |idx|
  {
    var f := v.fields[idx[0]];
    var path := JoinPath(base, f.key);
    if IsRecordFile(f.val) {
      if NoSeparator(f.key) {
        LastSegment(base, f.key);
      }
    } else {
      FileAtPathEndsWithKey(f.val, path, idx[1..]);
    }
  }

  /** The push item for a file that has a record. */
  function ItemFor(file: FileNode, lastModified: map<string, Record>, now: int): QueueItem
    requires IsRecordFile(file.node) && file.path in lastModified
  {
    Push(Get(file.node, "content").value, file.path, now, lastModified[file.path].uuidCache, None, None)
  }

  function CacheUpTo(v: Value, base: string, n: nat, lastModified: map<string, Record>, now: int): seq<QueueItem>
    requires v.Obj? && n <= |v.fields|
    decreases v, n
  {
    if n == 0 then [] else CacheUpTo(v, base, n - 1, lastModified, now) + CacheField(v, base, n - 1, lastModified, now)
  }

  /** The items pushed for the key at position `k` of `v`: a file with a record gives one item, a
      file without one none, any other object the items of its subtree, anything else none. */
  function CacheField(v: Value, base: string, k: nat, lastModified: map<string, Record>, now: int): seq<QueueItem>
    requires v.Obj? && k < |v.fields|
    decreases v, k
  {
    var f := v.fields[k];
    var path := JoinPath(base, f.key);
    if IsRecordFile(f.val) then
      (if path in lastModified then [ItemFor(FileNode(path, f.key, f.val), lastModified, now)] else [])
    else if f.val.Obj? then CacheUpTo(f.val, path, |f.val.fields|, lastModified, now)
    else []
  }

  function CacheArray(tree: Value, lastModified: map<string, Record>, base: string, now: int): seq<QueueItem> {
    if tree.Obj? then CacheUpTo(tree, base, |tree.fields|, lastModified, now) else []
  }

  /** generateCacheArray(tree, lastModifiedMap, basePath), reading the clock as `now`. */
  method GenerateCacheArray(tree: Value, lastModifiedMap: map<string, Record>, basePath: string, now: int)
    returns (result: seq<QueueItem>)
    ensures result == CacheArray(tree, lastModifiedMap, basePath, now)
  {
    result := Traverse(tree, basePath, lastModifiedMap, now, []);
  }

  /** The inner `traverse(node, currentPath)`, pushing onto `acc`. */
  method Traverse(node: Value, currentPath: string, lastModifiedMap: map<string, Record>, now: int, acc: seq<QueueItem>)
    returns (result: seq<QueueItem>)
    ensures result == acc + CacheArray(node, lastModifiedMap, currentPath, now)
    decreases node
  {
    result := acc;
    if !node.Obj? {
      assert acc + [] == acc;
      return;
    }
    assert acc + [] == acc;
    var i := 0;
    while i < |node.fields|
      invariant 0 <= i <= |node.fields|
      invariant result == acc + CacheUpTo(node, currentPath, i, lastModifiedMap, now)
    {
      var key, value := node.fields[i].key, node.fields[i].val;
      var fullPath := JoinPath(currentPath, key);
      ghost var pre := result;
      if IsRecordFile(value) {
        if fullPath in lastModifiedMap {
          var meta := lastModifiedMap[fullPath];
          result := result + [Push(Get(value, "content").value, fullPath, now, meta.uuidCache, None, None)];
        }
      } else if value.Obj? {
        result := Traverse(value, fullPath, lastModifiedMap, now, result);
      }
      ghost var x := CacheField(node, currentPath, i, lastModifiedMap, now);
      assert result == pre + x;
      CacheUpToStep(node, currentPath, i, lastModifiedMap, now, acc);
      i := i + 1;
    }
  }

  lemma CacheUpToStep(v: Value, base: string, i: nat, lastModified: map<string, Record>, now: int, acc: seq<QueueItem>)
    requires v.Obj? && i < |v.fields|
    ensures acc + CacheUpTo(v, base, i + 1, lastModified, now)
      == acc + CacheUpTo(v, base, i, lastModified, now) + CacheField(v, base, i, lastModified, now)
  {
  }

  lemma {:induction false} CacheFieldSound(v: Value, base: string, k: nat, lastModified: map<string, Record>, now: int, q: QueueItem)
    returns (idx: seq<nat>)
    requires v.Obj? && k < |v.fields| && q in CacheField(v, base, k, lastModified, now)
    ensures |idx| > 0 && idx[0] == k && FileAt(v, base, idx).Some?
    ensures FileAt(v, base, idx).value.path in lastModified
    ensures q == ItemFor(FileAt(v, base, idx).value, lastModified, now)
    decreases v, k, 0
  {
    var f := v.fields[k];
    var path := JoinPath(base, f.key);
    if IsRecordFile(f.val) {
      idx := [k];
    } else {
      var idx' := CacheUpToSound(f.val, path, |f.val.fields|, lastModified, now, q);
      idx := [k] + idx';
      assert idx[1..] == idx';
    }
  }

  lemma {:induction false} CacheUpToSound(v: Value, base: string, n: nat, lastModified: map<string, Record>, now: int, q: QueueItem)
    returns (idx: seq<nat>)
    requires v.Obj? && n <= |v.fields| && q in CacheUpTo(v, base, n, lastModified, now)
    ensures |idx| > 0 && idx[0] < n && FileAt(v, base, idx).Some?
    ensures FileAt(v, base, idx).value.path in lastModified
    ensures q == ItemFor(FileAt(v, base, idx).value, lastModified, now)
    decreases v, n, 1
  {
    if q in CacheUpTo(v, base, n - 1, lastModified, now) {
      idx := CacheUpToSound(v, base, n - 1, lastModified, now, q);
    } else {
      idx := CacheFieldSound(v, base, n - 1, lastModified, now, q);
    }
  }

  lemma {:induction false} CacheFieldComplete(v: Value, base: string, idx: seq<nat>, lastModified: map<string, Record>, now: int)
    requires v.Obj? && |idx| > 0 && idx[0] < |v.fields| && FileAt(v, base, idx).Some?
    requires FileAt(v, base, idx).value.path in lastModified
    ensures ItemFor(FileAt(v, base, idx).value, lastModified, now) in CacheField(v, base, idx[0], lastModified, now)
    decreases v, idx[0], 0
  {
    var f := v.fields[idx[0]];
    if !IsRecordFile(f.val) {
      CacheUpToComplete(f.val, JoinPath(base, f.key), |f.val.fields|, idx[1..], lastModified, now);
    }
  }

  lemma {:induction false} CacheUpToComplete(v: Value, base: string, n: nat, idx: seq<nat>, lastModified: map<string, Record>, now: int)
    requires v.Obj? && n <= |v.fields| && FileAt(v, base, idx).Some? && idx[0] < n
    requires FileAt(v, base, idx).value.path in lastModified
    ensures ItemFor(FileAt(v, base, idx).value, lastModified, now) in CacheUpTo(v, base, n, lastModified, now)
    decreases v, n, 1
  {
    if idx[0] < n - 1 {
      CacheUpToComplete(v, base, n - 1, idx, lastModified, now);
    } else {
      CacheFieldComplete(v, base, idx, lastModified, now);
    }
  }

  /** `q` is the push item of a file of `tree` that has a record. */
  ghost predicate ItemOfFile(tree: Value, base: string, lastModified: map<string, Record>, now: int, q: QueueItem) {
    exists idx :: FileAt(tree, base, idx).Some? && FileAt(tree, base, idx).value.path in lastModified
      && q == ItemFor(FileAt(tree, base, idx).value, lastModified, now)
  }

  /** The initial queue holds exactly one push item per file that has a record: the node's
      `content`, the file's path, the clock reading and the record's `uuid_cache`. Files without a
      record are skipped, and values that are not objects are never entered. */
  lemma CacheArrayExact(tree: Value, lastModified: map<string, Record>, base: string, now: int)
    ensures forall q :: q in CacheArray(tree, lastModified, base, now) <==> ItemOfFile(tree, base, lastModified, now, q)
  {
    forall q | q in CacheArray(tree, lastModified, base, now) ensures ItemOfFile(tree, base, lastModified, now, q) {
      var idx := CacheUpToSound(tree, base, |tree.fields|, lastModified, now, q);
    }
    forall q | ItemOfFile(tree, base, lastModified, now, q) ensures q in CacheArray(tree, lastModified, base, now) {
      var idx :| FileAt(tree, base, idx).Some? && FileAt(tree, base, idx).value.path in lastModified
        && q == ItemFor(FileAt(tree, base, idx).value, lastModified, now);
      CacheUpToComplete(tree, base, |tree.fields|, idx, lastModified, now);
    }
  }

  /** `projectData` of the `open` message. */
  datatype ProjectData = ProjectData(id: Value, title: Value, lastModified: map<string, Record>, coAuthors: Value)

  /** The `open` branch of the worker: the index and the initial queue, both built from the tree. */
  method OpenProject(id: Value, title: Value, metadata: Value, coAuthors: Value, now: int, ids: nat -> string, next: nat)
    returns (projectData: ProjectData, cacheArray: seq<QueueItem>, next': nat)
    ensures projectData.id == id && projectData.title == title && projectData.coAuthors == coAuthors
    ensures Generated(projectData.lastModified, next') == LastModifiedMap(metadata, "", now, ids, next)
    ensures cacheArray == CacheArray(metadata, projectData.lastModified, "", now)
  {
    var lastModified;
    lastModified, next' := GenerateLastModifiedMap(metadata, "", now, ids, next);
    cacheArray := GenerateCacheArray(metadata, lastModified, "", now);
    projectData := ProjectData(id, title, lastModified, coAuthors);
  }

  /** On `open`, every file of the tree gets exactly one push item, and every item's `uuid_cache` is
      the `uuid_cache` of the record the index holds for its path. */
  lemma OpenConsistent(metadata: Value, now: int, ids: nat -> string, next: nat)
    ensures var lastModified := LastModifiedMap(metadata, "", now, ids, next).records;
      var items := CacheArray(metadata, lastModified, "", now);
      && (forall q :: q in items ==> q.Push? && q.path in lastModified && q.uuidCache == lastModified[q.path].uuidCache)
      && (forall idx :: FileAt(metadata, "", idx).Some? ==>
            FileAt(metadata, "", idx).value.path in lastModified
            && ItemFor(FileAt(metadata, "", idx).value, lastModified, now) in items)
  {
    var lastModified := LastModifiedMap(metadata, "", now, ids, next).records;
    LastModifiedMapExact(metadata, "", now, ids, next);
    CacheArrayExact(metadata, lastModified, "", now);
    forall q | q in CacheArray(metadata, lastModified, "", now)
      ensures q.Push? && q.path in lastModified && q.uuidCache == lastModified[q.path].uuidCache
    {
      assert ItemOfFile(metadata, "", lastModified, now, q);
    }
    forall idx | FileAt(metadata, "", idx).Some?
      ensures FileAt(metadata, "", idx).value.path in lastModified
      ensures ItemFor(FileAt(metadata, "", idx).value, lastModified, now) in CacheArray(metadata, lastModified, "", now)
    {
      assert FileAtPath(metadata, "", FileAt(metadata, "", idx).value.path);
      assert ItemOfFile(metadata, "", lastModified, now, ItemFor(FileAt(metadata, "", idx).value, lastModified, now));
    }
  }
}
