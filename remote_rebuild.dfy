/** The remote reconstructor (`rebuildFirestoreAsMetadata`) and the remote flat list
    (`flatMetadataToList`).

    The remote tree is keyed by uuid: a string value is the NAME of a file whose uuid is its key;
    an object with a truthy `_name` is a folder whose uuid is its key and whose other keys are its
    children. The reconstructor turns it into an object `path -> {uuid}`; the model records the
    writes `result[path] = {uuid}` the traversal does, in order, and the object they build. */
module RemoteRebuild {

  import opened Wrappers
  import opened Json
  import opened Paths
  import opened OrderedMap

  /** One write `result[path] = { uuid }`: (path, uuid). */
  type Write = (string, string)

  /** A remote folder: an object whose `_name` is truthy. */
  predicate IsFolder(v: Value) {
    v.Obj? && TruthyOpt(Get(v, "_name"))
  }

  /** `String(node._name)`, the folder's name as it appears in a path. */
  function FolderName(v: Value): (name: string)
    requires IsFolder(v)
    ensures name != ""
  {
    var n := Get(v, "_name").value;
    assert n.Num? ==> |NatToString(if n.n < 0 then -n.n else n.n)| >= 1;
    ToStr(n)
  }

  /** The path of a file named `name` found under `base`. At the top level the empty base adds no
      separator; inside a folder the separator is always written. */
  function FilePath(base: string, name: string, inner: bool): string {
    if inner then base + "/" + name else JoinPath(base, name)
  }

  /** The writes done for the first `n` keys of `v`; `inner` says whether `v` is a folder being
      iterated (its `_name` key is passed over) rather than a tree given to the function. */
  function WritesUpTo(v: Value, base: string, n: nat, inner: bool): Result<seq<Write>>
    requires v.Obj? && n <= |v.fields|
    decreases v, n
  {
    if n == 0 then Ok([])
    else
      match WritesUpTo(v, base, n - 1, inner)
      case TypeError => TypeError
      case Ok(pre) =>
        match FieldWrites(v, base, n - 1, inner)
        case TypeError => TypeError
        case Ok(ws) => Ok(pre + ws)
  }

  /** The writes done for the key at position `k` of `v`: a string is a file, a folder writes its
      own entry and then its children below its path, `null` throws on `null._name`, anything else
      is passed over. */
  function FieldWrites(v: Value, base: string, k: nat, inner: bool): Result<seq<Write>>
    requires v.Obj? && k < |v.fields|
    decreases v, k
  {
    var f := v.fields[k];
    if inner && f.key == "_name" then Ok([])
    else if f.val.Str? then Ok([(FilePath(base, f.val.s, inner), f.key)])
    else if f.val.Null? then TypeError
    else if IsFolder(f.val) then
      var folderPath := JoinPath(base, FolderName(f.val));
      match WritesUpTo(f.val, folderPath, |f.val.fields|, true)
      case TypeError => TypeError
      case Ok(ws) => Ok([(folderPath, f.key)] + ws)
    else Ok([])
  }

  /** All writes for `tree` below `base`, over the keys `for...in` visits: a string tree is walked
      by character position, and any other value that is not an object has no keys. */
  function WritesOf(tree: Value, base: string): Result<seq<Write>> {
    var node := Keyed(tree);
    WritesUpTo(node, base, |node.fields|, false)
  }

  /** The object `rebuildFirestoreAsMetadata(tree, base)` returns, or the error it throws. */
  function Rebuild(tree: Value, base: string): Result<Dict<string>> {
    match WritesOf(tree, base)
    case TypeError => TypeError
    case Ok(w) => Ok(PutAll(Empty(), w))
  }

  /** A string tree is decoded by character position: `"ab"` gives `a` with uuid `"0"` and `b`
      with uuid `"1"`. */
  lemma StringTreeWrites()
    ensures WritesOf(Str("ab"), "") == Ok([("a", "0"), ("b", "1")])
  {
    KeyedString();
    var node := Keyed(Str("ab"));
    assert FieldWrites(node, "", 0, false) == Ok([("a", "0")]);
    assert FieldWrites(node, "", 1, false) == Ok([("b", "1")]);
    assert WritesUpTo(node, "", 0, false) == Ok([]);
    assert [] + [("a", "0")] == [("a", "0")];
    assert WritesUpTo(node, "", 1, false) == Ok([("a", "0")]);
    assert [("a", "0")] + [("b", "1")] == [("a", "0"), ("b", "1")];
  }

  /** Number of nodes of a value, to measure the recursion on the one-key subtree. */
  function Size(v: Value): nat
    decreases v, 1
  {
    if v.Obj? then 1 + SizeUpTo(v, |v.fields|) else 1
  }

  function SizeUpTo(v: Value, n: nat): nat
    requires v.Obj? && n <= |v.fields|
    decreases v, 0, n
  {
    if n == 0 then 0 else SizeUpTo(v, n - 1) + 1 + Size(v.fields[n - 1].val)
  }

  lemma {:induction false} SizeUpToChild(v: Value, n: nat, i: nat)
    requires v.Obj? && i < n <= |v.fields|
    ensures SizeUpTo(v, n) >= 1 + Size(v.fields[i].val)
  {
    if i < n - 1 {
      SizeUpToChild(v, n - 1, i);
    }
  }

  lemma {:induction false} SizeUpToTwo(v: Value, n: nat, i: nat, m: nat)
    requires v.Obj? && i < n <= |v.fields| && m < n && i != m
    ensures SizeUpTo(v, n) >= 2 + Size(v.fields[i].val) + Size(v.fields[m].val)
  {
    if i == n - 1 {
      SizeUpToChild(v, n - 1, m);
    } else if m == n - 1 {
      SizeUpToChild(v, n - 1, i);
    } else {
      SizeUpToTwo(v, n - 1, i, m);
    }
  }

  /** A child is smaller than its object. */
  lemma ChildSmaller(node: Value, j: nat)
    requires node.Obj? && j < |node.fields|
    ensures Size(node.fields[j].val) < Size(node)
  {
    SizeUpToChild(node, |node.fields|, j);
  }

  /** The one-key subtree `{ [k]: value }` built for a sub-folder of folder `node` is smaller than
      `node`, which also holds its `_name`. */
  lemma SubtreeSmaller(node: Value, j: nat)
    requires IsFolder(node) && j < |node.fields| && node.fields[j].key != "_name"
    ensures Size(Obj([node.fields[j]])) < Size(node)
  {
    LookupExact(node.fields, "_name");
    var m :| 0 <= m < |node.fields| && node.fields[m] == Field("_name", Get(node, "_name").value);
    var sub := Obj([node.fields[j]]);
    assert SizeUpTo(sub, 1) == 1 + Size(node.fields[j].val);
    SizeUpToTwo(node, |node.fields|, j, m);
  }

  /** Rebuilding the one-key subtree of a sub-folder does that folder's writes. */
  lemma SubtreeWrites(node: Value, folderPath: string, j: nat)
    requires node.Obj? && j < |node.fields|
    requires node.fields[j].key != "_name" && IsFolder(node.fields[j].val)
    ensures WritesOf(Obj([node.fields[j]]), folderPath) == FieldWrites(node, folderPath, j, true)
  {
    var sub := Obj([node.fields[j]]);
    assert WritesUpTo(sub, folderPath, 0, false) == Ok([]);
    match FieldWrites(sub, folderPath, 0, false)
    case TypeError =>
    case Ok(ws) => assert [] + ws == ws;
  }

  lemma AppendAssoc<T>(a: seq<T>, b: seq<T>, c: seq<T>)
    ensures a + b + c == a + (b + c)
  {
  }

  /** Once a key has thrown, the traversal of that object throws. */
  lemma {:induction false} ThrowPersists(v: Value, base: string, n: nat, inner: bool)
    requires v.Obj? && n <= |v.fields|
    requires WritesUpTo(v, base, n, inner) == TypeError
    ensures WritesUpTo(v, base, |v.fields|, inner) == TypeError
    decreases |v.fields| - n
  {
    if n < |v.fields| {
      ThrowPersists(v, base, n + 1, inner);
    }
  }

  /** rebuildFirestoreAsMetadata(tree, basePath) */
  method RebuildFirestoreAsMetadata(tree: Value, basePath: string) returns (r: Result<Dict<string>>)
    ensures r == Rebuild(tree, basePath)
    decreases Size(Keyed(tree)), 5
  {
    r := DecodeTopKeys(Keyed(tree), basePath);
  }

  /** The outer `for (const uuid in tree)` loop, over the keys of `node`. */
  method DecodeTopKeys(node: Value, basePath: string) returns (r: Result<Dict<string>>)
    requires node.Obj?
    ensures WritesUpTo(node, basePath, |node.fields|, false).TypeError? ==> r.TypeError?
    ensures WritesUpTo(node, basePath, |node.fields|, false).Ok? ==>
      r == Ok(PutAll(Empty(), WritesUpTo(node, basePath, |node.fields|, false).value))
    decreases Size(node), 4
  {
    var result: Dict<string> := Empty();
    ghost var w: seq<Write> := [];
    var i := 0;
    while i < |node.fields|
      invariant 0 <= i <= |node.fields|
      invariant WritesUpTo(node, basePath, i, false) == Ok(w)
      invariant result == PutAll(Empty(), w)
    {
      var next := DecodeTopKey(node, basePath, i, result, w);
      if next.TypeError? {
        ThrowPersists(node, basePath, i + 1, false);
        return TypeError;
      }
      result := next.value;
      w := w + FieldWrites(node, basePath, i, false).value;
      i := i + 1;
    }
    return Ok(result);
  }

  /** One iteration of the outer loop: the key at position `i` of `tree`, continuing the object
      `acc` built by the writes `done`. */
  method DecodeTopKey(tree: Value, basePath: string, i: nat, acc: Dict<string>, ghost done: seq<Write>)
    returns (r: Result<Dict<string>>)
    requires tree.Obj? && i < |tree.fields| && acc == PutAll(Empty(), done)
    ensures FieldWrites(tree, basePath, i, false).TypeError? ==> r.TypeError?
    ensures FieldWrites(tree, basePath, i, false).Ok? ==>
      r == Ok(PutAll(Empty(), done + FieldWrites(tree, basePath, i, false).value))
    decreases Size(tree), 3
  {
    var uuid, node := tree.fields[i].key, tree.fields[i].val;
    if node.Str? {
      var path := JoinPath(basePath, node.s);
      PutAllSnoc(Empty(), done, path, uuid);
      return Ok(Put(acc, path, uuid));
    } else if node.Null? {
      return TypeError;
    } else if node.Obj? && TruthyOpt(Get(node, "_name")) {
      var folderPath := JoinPath(basePath, FolderName(node));
      PutAllSnoc(Empty(), done, folderPath, uuid);
      ChildSmaller(tree, i);
      var children := DecodeFolderChildren(node, folderPath, Put(acc, folderPath, uuid), done + [(folderPath, uuid)]);
      if children.TypeError? {
        return TypeError;
      }
      AppendAssoc(done, [(folderPath, uuid)], WritesUpTo(node, folderPath, |node.fields|, true).value);
      return children;
    }
    assert done + [] == done;
    return Ok(acc);
  }

  /** The inner loop of `rebuildFirestoreAsMetadata` over the keys of folder `node`, continuing the
      object `result` built by the writes `w`. */
  method DecodeFolderChildren(node: Value, folderPath: string, result: Dict<string>, ghost w: seq<Write>)
    returns (r: Result<Dict<string>>)
    requires IsFolder(node) && result == PutAll(Empty(), w)
    ensures WritesUpTo(node, folderPath, |node.fields|, true).TypeError? ==> r.TypeError?
    ensures WritesUpTo(node, folderPath, |node.fields|, true).Ok? ==>
      r == Ok(PutAll(Empty(), w + WritesUpTo(node, folderPath, |node.fields|, true).value))
    decreases Size(node), 2
  {
    var acc := result;
    ghost var inner: seq<Write> := [];
    assert w + inner == w;
    var j := 0;
    while j < |node.fields|
      invariant 0 <= j <= |node.fields|
      invariant WritesUpTo(node, folderPath, j, true) == Ok(inner)
      invariant acc == PutAll(Empty(), w + inner)
    {
      var next := DecodeFolderChild(node, folderPath, j, acc, w + inner);
      if next.TypeError? {
        ThrowPersists(node, folderPath, j + 1, true);
        return TypeError;
      }
      ghost var y := FieldWrites(node, folderPath, j, true).value;
      AppendAssoc(w, inner, y);
      acc := next.value;
      inner := inner + y;
      j := j + 1;
    }
    return Ok(acc);
  }

  /** One iteration of that inner loop: the key at position `j` of folder `node`. */
  method DecodeFolderChild(node: Value, folderPath: string, j: nat, acc: Dict<string>, ghost done: seq<Write>)
    returns (r: Result<Dict<string>>)
    requires IsFolder(node) && j < |node.fields| && acc == PutAll(Empty(), done)
    ensures FieldWrites(node, folderPath, j, true).TypeError? ==> r.TypeError?
    ensures FieldWrites(node, folderPath, j, true).Ok? ==>
      r == Ok(PutAll(Empty(), done + FieldWrites(node, folderPath, j, true).value))
    decreases Size(node), 1
  {
    var innerUuid, value := node.fields[j].key, node.fields[j].val;
    if innerUuid == "_name" {
      assert done + [] == done;
      return Ok(acc);
    }
    if value.Str? {
      var filePath := folderPath + "/" + value.s;
      PutAllSnoc(Empty(), done, filePath, innerUuid);
      return Ok(Put(acc, filePath, innerUuid));
    } else if value.Null? {
      return TypeError;
    } else if value.Obj? && TruthyOpt(Get(value, "_name")) {
      SubtreeSmaller(node, j);
      var subResult := RebuildFirestoreAsMetadata(Obj([node.fields[j]]), folderPath);
      SubtreeWrites(node, folderPath, j);
      if subResult.TypeError? {
        return TypeError;
      }
      ghost var y := FieldWrites(node, folderPath, j, true).value;
      AssignFresh(acc, y);
      PutAllAppend(Empty(), done, y);
      return Ok(Assign(acc, subResult.value));
    }
    assert done + [] == done;
    return Ok(acc);
  }

  /** The write done for the node reached from `v` by the field positions `idx`: the last position
      names a file (a string) or a folder (its own entry); every position before it goes through a
      folder, whose `_name` key is never a child. */
  function WriteAt(v: Value, base: string, idx: seq<nat>, inner: bool): Option<Write>
    decreases |idx|
  {
    if |idx| == 0 || !v.Obj? || idx[0] >= |v.fields| then None
    else
      var f := v.fields[idx[0]];
      if inner && f.key == "_name" then None
      else if f.val.Str? then (if |idx| == 1 then Some((FilePath(base, f.val.s, inner), f.key)) else None)
      else if IsFolder(f.val) then
        var folderPath := JoinPath(base, FolderName(f.val));
        if |idx| == 1 then Some((folderPath, f.key)) else WriteAt(f.val, folderPath, idx[1..], true)
      else None
  }

  lemma {:induction false} FieldWritesSound(v: Value, base: string, k: nat, inner: bool, ws: seq<Write>, x: Write)
    requires v.Obj? && k < |v.fields|
    requires FieldWrites(v, base, k, inner) == Ok(ws) && x in ws
    ensures exists idx :: |idx| > 0 && idx[0] == k && WriteAt(v, base, idx, inner) == Some(x)
    decreases v, k, 0
  {
    var f := v.fields[k];
    if f.val.Str? || x == ws[0] {
      assert WriteAt(v, base, [k], inner) == Some(x);
    } else {
      var folderPath := JoinPath(base, FolderName(f.val));
      var children := WritesUpTo(f.val, folderPath, |f.val.fields|, true).value;
      assert ws == [ws[0]] + children;
      WritesUpToSound(f.val, folderPath, |f.val.fields|, true, children, x);
      var idx' :| |idx'| > 0 && idx'[0] < |f.val.fields| && WriteAt(f.val, folderPath, idx', true) == Some(x);
      var idx := [k] + idx';
      assert idx[1..] == idx';
      assert WriteAt(v, base, idx, inner) == Some(x);
    }
  }

  lemma {:induction false} WritesUpToSound(v: Value, base: string, n: nat, inner: bool, w: seq<Write>, x: Write)
    requires v.Obj? && n <= |v.fields|
    requires WritesUpTo(v, base, n, inner) == Ok(w) && x in w
    ensures exists idx :: |idx| > 0 && idx[0] < n && WriteAt(v, base, idx, inner) == Some(x)
    decreases v, n, 1
  {
    var pre := WritesUpTo(v, base, n - 1, inner).value;
    var ws := FieldWrites(v, base, n - 1, inner).value;
    assert w == pre + ws;
    if x in pre {
      WritesUpToSound(v, base, n - 1, inner, pre, x);
      var idx :| |idx| > 0 && idx[0] < n - 1 && WriteAt(v, base, idx, inner) == Some(x);
    } else {
      FieldWritesSound(v, base, n - 1, inner, ws, x);
      var idx :| |idx| > 0 && idx[0] == n - 1 && WriteAt(v, base, idx, inner) == Some(x);
    }
  }

  lemma {:induction false} FieldWritesComplete(v: Value, base: string, idx: seq<nat>, inner: bool, ws: seq<Write>, x: Write)
    requires v.Obj? && |idx| > 0 && idx[0] < |v.fields|
    requires FieldWrites(v, base, idx[0], inner) == Ok(ws)
    requires WriteAt(v, base, idx, inner) == Some(x)
    ensures x in ws
    decreases v, idx[0], 0
  {
    var f := v.fields[idx[0]];
    if IsFolder(f.val) && |idx| > 1 {
      var folderPath := JoinPath(base, FolderName(f.val));
      var children := WritesUpTo(f.val, folderPath, |f.val.fields|, true).value;
      assert WriteAt(f.val, folderPath, idx[1..], true) == Some(x);
      WritesUpToComplete(f.val, folderPath, |f.val.fields|, idx[1..], true, children, x);
      assert ws == [ws[0]] + children;
    }
  }

  lemma {:induction false} WritesUpToComplete(v: Value, base: string, n: nat, idx: seq<nat>, inner: bool, w: seq<Write>, x: Write)
    requires v.Obj? && n <= |v.fields|
    requires WritesUpTo(v, base, n, inner) == Ok(w)
    requires WriteAt(v, base, idx, inner) == Some(x) && idx[0] < n
    ensures x in w
    decreases v, n, 1
  {
    var pre := WritesUpTo(v, base, n - 1, inner).value;
    var ws := FieldWrites(v, base, n - 1, inner).value;
    assert w == pre + ws;
    if idx[0] < n - 1 {
      WritesUpToComplete(v, base, n - 1, idx, inner, pre, x);
    } else {
      FieldWritesComplete(v, base, idx, inner, ws, x);
    }
  }

  /** `(path, uuid)` is written for some node of the tree `v`, walked by the keys `for...in`
      visits. */
  ghost predicate IsWrite(v: Value, base: string, x: Write) {
    exists idx :: WriteAt(Keyed(v), base, idx, false) == Some(x)
  }

  /** The traversal writes exactly one `{uuid}` per string and per folder reachable through folders:
      a string `name` under key `k` in a folder at `p` is written at `p/name` with uuid `k`, a folder
      under key `k` is written at the path ending in its `_name` with uuid `k`, and objects without a
      truthy `_name` are passed over together with everything below them. */
  lemma WritesExact(tree: Value, base: string, w: seq<Write>)
    requires WritesOf(tree, base) == Ok(w)
    ensures forall x :: x in w <==> IsWrite(tree, base, x)
  {
    var node := Keyed(tree);
    forall x | x in w ensures IsWrite(tree, base, x) {
      WritesUpToSound(node, base, |node.fields|, false, w, x);
      var idx :| |idx| > 0 && idx[0] < |node.fields| && WriteAt(node, base, idx, false) == Some(x);
    }
    forall x | IsWrite(tree, base, x) ensures x in w {
      var idx :| WriteAt(node, base, idx, false) == Some(x);
      WritesUpToComplete(node, base, |node.fields|, idx, false, w, x);
    }
  }

  /** The rebuilt object has an entry for exactly the paths written, each holding the uuid of a node
      written at that path (the last one, when several nodes share a path). */
  lemma RebuildEntries(tree: Value, base: string, d: Dict<string>)
    requires Rebuild(tree, base) == Ok(d)
    ensures Valid(d)
    ensures forall p :: p in d.entries <==> exists u :: IsWrite(tree, base, (p, u))
    ensures forall p :: p in d.entries ==> IsWrite(tree, base, (p, d.entries[p]))
  {
    var w := WritesOf(tree, base).value;
    WritesExact(tree, base, w);
    PutAllValid(Empty(), w);
    forall p ensures p in d.entries <==> exists u :: IsWrite(tree, base, (p, u)) {
      PutAllLookup(Empty(), w, p);
      LastWriteSome(w, p);
      if exists u :: IsWrite(tree, base, (p, u)) {
        var u :| IsWrite(tree, base, (p, u));
        var i :| 0 <= i < |w| && w[i] == (p, u);
      }
    }
    forall p | p in d.entries ensures IsWrite(tree, base, (p, d.entries[p])) {
      PutAllLookup(Empty(), w, p);
      LastWriteSome(w, p);
      var i :| 0 <= i < |w| && w[i] == (p, LastWrite(w, p).value);
    }
  }

  /** An entry of the remote flat list. */
  datatype RemoteEntry = RemoteEntry(path: string, uuid: string)

  /** `path.includes(".") && meta.uuid`: only paths with a dot and a non-empty uuid are files. */
  predicate IsRemoteFile(path: string, uuid: string) {
    '.' in path && uuid != ""
  }

  /** The file entries among the first `n` keys of `flat`, in key order. */
  function RemoteFilesUpTo(flat: Dict<string>, n: nat): seq<RemoteEntry>
    requires Valid(flat) && n <= |flat.order|
  {
    if n == 0 then []
    else
      var path := flat.order[n - 1];
      var uuid := flat.entries[path];
      RemoteFilesUpTo(flat, n - 1) + (if IsRemoteFile(path, uuid) then [RemoteEntry(path, uuid)] else [])
  }

  function RemoteFiles(flat: Dict<string>): seq<RemoteEntry>
    requires Valid(flat)
  {
    RemoteFilesUpTo(flat, |flat.order|)
  }

  /** flatMetadataToList(flat) */
  method FlatMetadataToList(flat: Dict<string>) returns (files: seq<RemoteEntry>)
    requires Valid(flat)
    ensures files == RemoteFiles(flat)
    ensures forall e :: e in files <==>
      e.path in flat.entries && flat.entries[e.path] == e.uuid && IsRemoteFile(e.path, e.uuid)
    ensures forall a, b :: 0 <= a < b < |files| ==> files[a].path != files[b].path
  {
    files := [];
    var i := 0;
    while i < |flat.order|
      invariant 0 <= i <= |flat.order|
      invariant files == RemoteFilesUpTo(flat, i)
    {
      var path := flat.order[i];
      var uuid := flat.entries[path];
      if IsRemoteFile(path, uuid) {
        files := files + [RemoteEntry(path, uuid)];
      }
      i := i + 1;
    }
    assert flat.order[..i] == flat.order;
    forall e ensures e in files <==> e.path in flat.entries && flat.entries[e.path] == e.uuid && IsRemoteFile(e.path, e.uuid) {
      RemoteFilesMember(flat, i, e);
    }
    RemoteFilesDistinct(flat, i);
  }

  /** The file entries among the first `n` keys are those keys with their uuids, when they pass
      the file test. */
  lemma {:induction false} RemoteFilesMember(flat: Dict<string>, n: nat, e: RemoteEntry)
    requires Valid(flat) && n <= |flat.order|
    ensures e in RemoteFilesUpTo(flat, n) <==>
      e.path in flat.order[..n] && flat.entries[e.path] == e.uuid && IsRemoteFile(e.path, e.uuid)
  {
    if n > 0 {
      RemoteFilesMember(flat, n - 1, e);
      assert flat.order[..n] == flat.order[..n - 1] + [flat.order[n - 1]];
    }
  }

  /** No two file entries share a path. */
  lemma {:induction false} RemoteFilesDistinct(flat: Dict<string>, n: nat)
    requires Valid(flat) && n <= |flat.order|
    ensures var files := RemoteFilesUpTo(flat, n);
      forall a, b :: 0 <= a < b < |files| ==> files[a].path != files[b].path
  {
    if n > 0 {
      RemoteFilesDistinct(flat, n - 1);
      var pre := RemoteFilesUpTo(flat, n - 1);
      var path := flat.order[n - 1];
      forall a | 0 <= a < |pre| ensures pre[a].path != path {
        RemoteFilesMember(flat, n - 1, pre[a]);
        assert pre[a] in pre;
        var i :| 0 <= i < n - 1 && flat.order[..n - 1][i] == pre[a].path;
        assert flat.order[i] == pre[a].path;
      }
      var files := RemoteFilesUpTo(flat, n);
      forall a, b | 0 <= a < b < |files| ensures files[a].path != files[b].path {
        assert files[a] == pre[a];
        if b < |pre| {
          assert files[b] == pre[b];
        } else {
          assert files[b].path == path;
        }
      }
    }
  }
}
