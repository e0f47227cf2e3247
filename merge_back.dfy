/** Writing the remote uuids back into the user's tree once the queue has drained:
    `findUuidForPath` looks a path up in the compact remote tree, and
    `mergeUuidAndModifiedToMetadata` copies the user's tree, giving every file the uuid found for
    its path and `modified: false`. */
module MergeBack {

  import opened Wrappers
  import opened Json
  import opened Paths
  import opened RemoteRebuild
  import opened Records

  // ---------------------------------------------------------------------------------------------
  // findUuidForPath

  /** The loop of `findUuidForPath(fsNode, pathParts, level)` from key position `i` on. With
      `skipName` the `_name` key of a folder (`level > 0`) is passed over, as the remote decoder
      does; without it the function is as written, where that key is looked at like a file. A
      `null` value throws on `node._name`. */
  function FindUuidFrom(fsNode: Value, parts: seq<string>, level: nat, i: nat, skipName: bool): Result<string>
    requires fsNode.Obj? && i <= |fsNode.fields| && parts != []
    decreases fsNode, |fsNode.fields| - i
  {
    if i == |fsNode.fields| then Ok("")
    else
      var f := fsNode.fields[i];
      if skipName && level > 0 && f.key == "_name" then FindUuidFrom(fsNode, parts, level, i + 1, skipName)
      else if f.val.Str? then
        if f.val.s == parts[0] && |parts| == 1 then Ok(f.key)
        else FindUuidFrom(fsNode, parts, level, i + 1, skipName)
      else if f.val.Null? then TypeError
      else if IsFolder(f.val) && Get(f.val, "_name") == Some(Str(parts[0])) && |parts| > 1 then
        match FindUuidFrom(f.val, parts[1..], level + 1, 0, skipName)
        case TypeError => TypeError
        case Ok(found) => if found != "" then Ok(found) else FindUuidFrom(fsNode, parts, level, i + 1, skipName)
      else FindUuidFrom(fsNode, parts, level, i + 1, skipName)
  }

  /** findUuidForPath(fsNode, pathParts) as written: `""` for a falsy node or no parts, otherwise
      the search over the keys `for...in` visits (a string node by character position). */
  function FindUuidForPathAsWritten(fsNode: Value, pathParts: seq<string>): Result<string> {
    if !Truthy(fsNode) || pathParts == [] then Ok("")
    else FindUuidFrom(Keyed(fsNode), pathParts, 0, 0, false)
  }

  /** findUuidForPath(fsNode, pathParts) with the `_name` key of folders skipped. */
  function FindUuidForPath(fsNode: Value, pathParts: seq<string>): Result<string> {
    if !Truthy(fsNode) || pathParts == [] then Ok("")
    else FindUuidFrom(Keyed(fsNode), pathParts, 0, 0, true)
  }

  /** The search `traverse` calls: as written, or with the `_name` key of folders skipped. */
  function SearchUuid(fsNode: Value, pathParts: seq<string>, skipName: bool): Result<string> {
    if skipName then FindUuidForPath(fsNode, pathParts) else FindUuidForPathAsWritten(fsNode, pathParts)
  }

  /** `base/parts[0]/.../parts[n-1]`, or the bare join when `base` is empty. */
  function PathUnder(base: string, parts: seq<string>): string
    requires parts != []
  {
    if base == "" then Join(parts) else base + "/" + Join(parts)
  }

  /** Whatever non-empty uuid the corrected search finds below a node is the uuid the remote
      decoder writes for the path `base/parts...`, so it is a file of the rebuilt tree. */
  lemma {:induction false} FindUuidFromSound(fsNode: Value, parts: seq<string>, level: nat, i: nat,
                                             base: string, inner: bool, u: string)
    returns (idx: seq<nat>)
    requires fsNode.Obj? && i <= |fsNode.fields| && parts != []
    requires inner <==> level > 0
    requires inner ==> base != ""
    requires !inner ==> base == ""
    requires FindUuidFrom(fsNode, parts, level, i, true) == Ok(u) && u != ""
    ensures WriteAt(fsNode, base, idx, inner) == Some((PathUnder(base, parts), u))
    decreases fsNode, |fsNode.fields| - i
  {
    var f := fsNode.fields[i];
    if level > 0 && f.key == "_name" {
      idx := FindUuidFromSound(fsNode, parts, level, i + 1, base, inner, u);
    } else if f.val.Str? {
      if f.val.s == parts[0] && |parts| == 1 {
        idx := [i];
        assert u == f.key;
        assert Join(parts) == f.val.s;
        assert WriteAt(fsNode, base, idx, inner) == Some((FilePath(base, f.val.s, inner), f.key));
      } else {
        idx := FindUuidFromSound(fsNode, parts, level, i + 1, base, inner, u);
      }
    } else if IsFolder(f.val) && Get(f.val, "_name") == Some(Str(parts[0])) && |parts| > 1
              && FindUuidFrom(f.val, parts[1..], level + 1, 0, true) == Ok(u) {
      var folderPath := JoinPath(base, FolderName(f.val));
      assert FolderName(f.val) == parts[0];
      var idx' := FindUuidFromSound(f.val, parts[1..], level + 1, 0, folderPath, true, u);
      idx := [i] + idx';
      assert idx[1..] == idx';
      assert WriteAt(fsNode, base, idx, inner) == WriteAt(f.val, folderPath, idx', true);
      FolderPathUnder(base, parts, folderPath);
    } else {
      idx := FindUuidFromSound(fsNode, parts, level, i + 1, base, inner, u);
    }
  }

  /** Descending into the folder named `parts[0]` below `base` leaves the rest of the path. */
  lemma FolderPathUnder(base: string, parts: seq<string>, folderPath: string)
    requires |parts| > 1 && folderPath == JoinPath(base, parts[0])
    ensures folderPath != "" ==> PathUnder(folderPath, parts[1..]) == PathUnder(base, parts)
  {
    assert Join(parts) == parts[0] + "/" + Join(parts[1..]);
  }

  /** A non-empty uuid found for a path is the uuid of an entry the remote decoder writes at that
      path. */
  lemma FindUuidForPathSound(tree: Value, parts: seq<string>, u: string)
    requires FindUuidForPath(tree, parts) == Ok(u) && u != ""
    ensures parts != [] && IsWrite(tree, "", (Join(parts), u))
  {
    var idx := FindUuidFromSound(Keyed(tree), parts, 0, 0, "", false, u);
  }

  /** As written, the search inside a folder also looks at the folder's own `_name` key: for a
      path whose last two segments are the same folder name it returns `"_name"` as a uuid, which
      is no entry's uuid; with that key skipped nothing is found. */
  lemma FindUuidReturnsNameKey()
    ensures var tree := Obj([Field("f1", Obj([Field("_name", Str("docs"))]))]);
      && FindUuidForPathAsWritten(tree, ["docs", "docs"]) == Ok("_name")
      && FindUuidForPath(tree, ["docs", "docs"]) == Ok("")
      && !IsWrite(tree, "", ("docs/docs", "_name"))
  {
    var tree := Obj([Field("f1", Obj([Field("_name", Str("docs"))]))]);
    var folder := tree.fields[0].val;
    assert Get(folder, "_name") == Some(Str("docs"));
    assert FindUuidFrom(folder, ["docs"], 1, 0, false) == Ok("_name");
    assert ["docs", "docs"][1..] == ["docs"];
    assert FindUuidFrom(folder, ["docs"], 1, 0, true) == Ok("");
    assert FolderName(folder) == "docs";
    forall idx ensures WriteAt(tree, "", idx, false) != Some(("docs/docs", "_name")) {
      if |idx| > 1 && idx[0] == 0 {
        assert WriteAt(folder, "docs", idx[1..], true) == None;
      }
    }
  }

  // ---------------------------------------------------------------------------------------------
  // mergeUuidAndModifiedToMetadata

  /** `{...value, uuid, modified: false}`. */
  function MarkFile(file: Value, uuid: string): Value
    requires file.Obj?
  {
    Obj(SetField(SetField(file.fields, "uuid", Str(uuid)), "modified", Bool(false)))
  }

  /** The marked file has the given `uuid`, `modified: false`, and every other key of the file
      with its value. */
  lemma MarkFileFields(file: Value, uuid: string)
    requires file.Obj?
    ensures var r := MarkFile(file, uuid);
      && r.Obj? && Get(r, "uuid") == Some(Str(uuid)) && Get(r, "modified") == Some(Bool(false))
      && forall j :: j != "uuid" && j != "modified" ==> Get(r, j) == Get(file, j)
  {
    var once := SetField(file.fields, "uuid", Str(uuid));
    SetFieldLookup(file.fields, "uuid", Str(uuid));
    SetFieldLookup(once, "modified", Bool(false));
    SetFieldOther(once, "modified", Bool(false), "uuid");
    forall j | j != "uuid" && j != "modified"
      ensures Get(MarkFile(file, uuid), j) == Get(file, j)
    {
      SetFieldOther(file.fields, "uuid", Str(uuid), j);
      SetFieldOther(once, "modified", Bool(false), j);
    }
  }

  /** The copy of the first `n` keys of `v`, or the error a lookup throws. */
  function MergeUpTo(v: Value, tree: Value, skipName: bool, base: string, n: nat): Result<seq<Field>>
    requires v.Obj? && n <= |v.fields|
    decreases v, n, 1
  {
    if n == 0 then Ok([])
    else
      match MergeUpTo(v, tree, skipName, base, n - 1)
      case TypeError => TypeError
      case Ok(pre) =>
        match MergeField(v, tree, skipName, base, n - 1)
        case TypeError => TypeError
        case Ok(x) => Ok(pre + [Field(v.fields[n - 1].key, x)])
  }

  /** The copy of the value at key position `k`: a file is marked with the uuid found for its
      path, another object is copied recursively, anything else as it is. */
  function MergeField(v: Value, tree: Value, skipName: bool, base: string, k: nat): Result<Value>
    requires v.Obj? && k < |v.fields|
    decreases v, k, 0
  {
    var f := v.fields[k];
    var path := JoinPath(base, f.key);
    if IsRecordFile(f.val) then
      match SearchUuid(tree, Split(path), skipName)
      case TypeError => TypeError
      case Ok(u) => Ok(MarkFile(f.val, u))
    else if f.val.Obj? then
      match MergeUpTo(f.val, tree, skipName, path, |f.val.fields|)
      case TypeError => TypeError
      case Ok(fs) => Ok(Obj(fs))
    else Ok(f.val)
  }

  /** `traverse(metaNode, fsNodeRoot, parentPath)` with the uuid search chosen by `skipName`
      (`false` is the search as written), over the keys `for...in` visits: a string is copied
      character by character, and any other value that is not an object gives `{}`. */
  function MergeNode(metaNode: Value, tree: Value, skipName: bool, base: string): Result<Value> {
    var node := Keyed(metaNode);
    match MergeUpTo(node, tree, skipName, base, |node.fields|)
    case TypeError => TypeError
    case Ok(fs) => Ok(Obj(fs))
  }

  /** mergeUuidAndModifiedToMetadata(metadata, firestoreTree), calling `findUuidForPath` as
      written. */
  method MergeUuidAndModifiedToMetadata(metadata: Value, firestoreTree: Value) returns (r: Result<Value>)
    ensures r == MergeNode(metadata, firestoreTree, false, "")
  {
    r := Traverse(metadata, firestoreTree, false, "");
  }

  /** The inner `traverse`, filling `result` key by key. */
  method Traverse(metaNode: Value, fsNodeRoot: Value, skipName: bool, parentPath: string) returns (r: Result<Value>)
    ensures r == MergeNode(metaNode, fsNodeRoot, skipName, parentPath)
    decreases Keyed(metaNode), 1
  {
    var node := Keyed(metaNode);
    var result: seq<Field> := [];
    var i := 0;
    while i < |node.fields|
      invariant 0 <= i <= |node.fields|
      invariant MergeUpTo(node, fsNodeRoot, skipName, parentPath, i) == Ok(result)
    {
      var x := MergeKey(node, fsNodeRoot, skipName, parentPath, i);
      if x.TypeError? {
        MergeFieldThrows(node, fsNodeRoot, skipName, parentPath, i);
        return TypeError;
      }
      MergeUpToStep(node, fsNodeRoot, skipName, parentPath, i);
      result := result + [Field(node.fields[i].key, x.value)];
      i := i + 1;
    }
    return Ok(Obj(result));
  }

  /** One pass of the loop in `traverse`: the copy of the value under the `i`-th key. */
  method MergeKey(metaNode: Value, fsNodeRoot: Value, skipName: bool, parentPath: string, i: nat) returns (x: Result<Value>)
    requires metaNode.Obj? && i < |metaNode.fields|
    ensures x == MergeField(metaNode, fsNodeRoot, skipName, parentPath, i)
    decreases metaNode, 0
  {
    var key, value := metaNode.fields[i].key, metaNode.fields[i].val;
    var path := JoinPath(parentPath, key);
    if IsRecordFile(value) {
      var uuid := SearchUuid(fsNodeRoot, Split(path), skipName);
      if uuid.TypeError? {
        return TypeError;
      }
      x := Ok(MarkFile(value, uuid.value));
    } else if value.Obj? {
      x := Traverse(value, fsNodeRoot, skipName, path);
    } else {
      x := Ok(value);
    }
  }

  lemma MergeUpToStep(v: Value, tree: Value, skipName: bool, base: string, n: nat)
    requires v.Obj? && n < |v.fields| && MergeUpTo(v, tree, skipName, base, n).Ok? && MergeField(v, tree, skipName, base, n).Ok?
    ensures MergeUpTo(v, tree, skipName, base, n + 1)
      == Ok(MergeUpTo(v, tree, skipName, base, n).value + [Field(v.fields[n].key, MergeField(v, tree, skipName, base, n).value)])
  {
    MergeUpToNext(v, tree, skipName, base, n + 1);
  }

  lemma MergeUpToNext(v: Value, tree: Value, skipName: bool, base: string, n: nat)
    requires v.Obj? && 0 < n <= |v.fields|
    requires MergeUpTo(v, tree, skipName, base, n - 1).Ok? && MergeField(v, tree, skipName, base, n - 1).Ok?
    ensures MergeUpTo(v, tree, skipName, base, n)
      == Ok(MergeUpTo(v, tree, skipName, base, n - 1).value + [Field(v.fields[n - 1].key, MergeField(v, tree, skipName, base, n - 1).value)])
  {
  }

  /** A lookup that throws for one key makes the whole copy throw. */
  lemma MergeFieldThrows(v: Value, tree: Value, skipName: bool, base: string, n: nat)
    requires v.Obj? && n < |v.fields| && MergeUpTo(v, tree, skipName, base, n).Ok? && MergeField(v, tree, skipName, base, n).TypeError?
    ensures MergeUpTo(v, tree, skipName, base, |v.fields|) == TypeError
  {
    MergeUpToThrows(v, tree, skipName, base, n + 1);
    MergeThrows(v, tree, skipName, base, n + 1, |v.fields|);
  }

  lemma MergeUpToThrows(v: Value, tree: Value, skipName: bool, base: string, n: nat)
    requires v.Obj? && 0 < n <= |v.fields| && MergeUpTo(v, tree, skipName, base, n - 1).Ok?
    requires MergeField(v, tree, skipName, base, n - 1).TypeError?
    ensures MergeUpTo(v, tree, skipName, base, n) == TypeError
  {
  }

  /** Once the copy of the first `k` keys throws, so does the copy of any longer prefix. */
  lemma {:induction false} MergeThrows(v: Value, tree: Value, skipName: bool, base: string, k: nat, n: nat)
    requires v.Obj? && k <= n <= |v.fields| && MergeUpTo(v, tree, skipName, base, k) == TypeError
    ensures MergeUpTo(v, tree, skipName, base, n) == TypeError
    decreases n
  {
    if k < n {
      MergeThrows(v, tree, skipName, base, k, n - 1);
    }
  }

  /** `out` is `v` with its keys in the same order, each value merged. */
  ghost predicate MergedObject(v: Value, out: Value, tree: Value, skipName: bool, base: string)
    decreases v, 0
  {
    && v.Obj? && out.Obj? && |out.fields| == |v.fields|
    && forall i :: 0 <= i < |v.fields| ==>
         out.fields[i].key == v.fields[i].key
         && MergedValue(v.fields[i].val, out.fields[i].val, tree, skipName, JoinPath(base, v.fields[i].key))
  }

  /** A file gets the uuid found for its path and `modified: false`, and keeps everything else; an
      object is merged key by key; any other value is kept. */
  ghost predicate MergedValue(x: Value, y: Value, tree: Value, skipName: bool, path: string)
    decreases x, 1
  {
    if IsRecordFile(x) then
      && SearchUuid(tree, Split(path), skipName).Ok?
      && y == MarkFile(x, SearchUuid(tree, Split(path), skipName).value)
    else if x.Obj? then MergedObject(x, y, tree, skipName, path)
    else y == x
  }

  lemma MergeUpToOk(v: Value, tree: Value, skipName: bool, base: string, n: nat)
    requires v.Obj? && 0 < n <= |v.fields| && MergeUpTo(v, tree, skipName, base, n).Ok?
    ensures MergeUpTo(v, tree, skipName, base, n - 1).Ok? && MergeField(v, tree, skipName, base, n - 1).Ok?
  {
  }

  /** The copy of `n` keys has `n` fields. */
  lemma {:induction false} MergeUpToLength(v: Value, tree: Value, skipName: bool, base: string, n: nat)
    requires v.Obj? && n <= |v.fields| && MergeUpTo(v, tree, skipName, base, n).Ok?
    ensures |MergeUpTo(v, tree, skipName, base, n).value| == n
    decreases n
  {
    if n > 0 {
      MergeUpToOk(v, tree, skipName, base, n);
      MergeUpToNext(v, tree, skipName, base, n);
      MergeUpToLength(v, tree, skipName, base, n - 1);
    }
  }

  /** The copy keeps the keys in their order: its `i`-th field is the `i`-th key with that key's
      value merged. */
  lemma {:induction false} MergeUpToAt(v: Value, tree: Value, skipName: bool, base: string, n: nat, i: nat)
    requires v.Obj? && i < n <= |v.fields| && MergeUpTo(v, tree, skipName, base, n).Ok?
    requires |MergeUpTo(v, tree, skipName, base, n).value| == n
    ensures MergeField(v, tree, skipName, base, i).Ok?
    ensures MergeUpTo(v, tree, skipName, base, n).value[i] == Field(v.fields[i].key, MergeField(v, tree, skipName, base, i).value)
    decreases n, 1
  {
    if i < n - 1 {
      MergeUpToBefore(v, tree, skipName, base, n, i);
    } else {
      MergeUpToLast(v, tree, skipName, base, n);
    }
  }

  lemma {:induction false} MergeUpToBefore(v: Value, tree: Value, skipName: bool, base: string, n: nat, i: nat)
    requires v.Obj? && i < n - 1 && n <= |v.fields| && MergeUpTo(v, tree, skipName, base, n).Ok?
    requires |MergeUpTo(v, tree, skipName, base, n).value| == n
    ensures MergeField(v, tree, skipName, base, i).Ok?
    ensures MergeUpTo(v, tree, skipName, base, n).value[i] == Field(v.fields[i].key, MergeField(v, tree, skipName, base, i).value)
    decreases n, 0
  {
    MergeUpToOk(v, tree, skipName, base, n);
    MergeUpToLength(v, tree, skipName, base, n - 1);
    MergeUpToAt(v, tree, skipName, base, n - 1, i);
    MergeUpToKeeps(v, tree, skipName, base, n, i);
  }

  lemma MergeUpToKeeps(v: Value, tree: Value, skipName: bool, base: string, n: nat, i: nat)
    requires v.Obj? && i < n - 1 && n <= |v.fields|
    requires MergeUpTo(v, tree, skipName, base, n).Ok? && MergeUpTo(v, tree, skipName, base, n - 1).Ok?
    requires |MergeUpTo(v, tree, skipName, base, n - 1).value| == n - 1
    ensures |MergeUpTo(v, tree, skipName, base, n).value| == n
    ensures MergeUpTo(v, tree, skipName, base, n).value[i] == MergeUpTo(v, tree, skipName, base, n - 1).value[i]
  {
    MergeUpToOk(v, tree, skipName, base, n);
    MergeUpToNext(v, tree, skipName, base, n);
    var pre := MergeUpTo(v, tree, skipName, base, n - 1).value;
    var fs := MergeUpTo(v, tree, skipName, base, n).value;
    assert fs == pre + [Field(v.fields[n - 1].key, MergeField(v, tree, skipName, base, n - 1).value)];
    assert fs[i] == pre[i];
  }

  lemma MergeUpToLast(v: Value, tree: Value, skipName: bool, base: string, n: nat)
    requires v.Obj? && 0 < n <= |v.fields| && MergeUpTo(v, tree, skipName, base, n).Ok?
    requires |MergeUpTo(v, tree, skipName, base, n).value| == n
    ensures MergeField(v, tree, skipName, base, n - 1).Ok?
    ensures MergeUpTo(v, tree, skipName, base, n).value[n - 1] == Field(v.fields[n - 1].key, MergeField(v, tree, skipName, base, n - 1).value)
  {
    MergeUpToOk(v, tree, skipName, base, n);
    MergeUpToNext(v, tree, skipName, base, n);
  }

  /** The merged copy of a whole object satisfies `MergedObject`. */
  lemma {:induction false} MergeObjectShape(v: Value, tree: Value, skipName: bool, base: string)
    requires v.Obj? && MergeUpTo(v, tree, skipName, base, |v.fields|).Ok?
    ensures MergedObject(v, Obj(MergeUpTo(v, tree, skipName, base, |v.fields|).value), tree, skipName, base)
    decreases v, 1
  {
    var fs := MergeUpTo(v, tree, skipName, base, |v.fields|).value;
    MergeUpToLength(v, tree, skipName, base, |v.fields|);
    forall i | 0 <= i < |v.fields|
      ensures fs[i].key == v.fields[i].key
      ensures MergedValue(v.fields[i].val, fs[i].val, tree, skipName, JoinPath(base, v.fields[i].key))
    {
      MergeUpToAt(v, tree, skipName, base, |v.fields|, i);
      MergeFieldShape(v, tree, skipName, base, i);
    }
  }

  lemma {:induction false} MergeFieldShape(v: Value, tree: Value, skipName: bool, base: string, k: nat)
    requires v.Obj? && k < |v.fields| && MergeField(v, tree, skipName, base, k).Ok?
    ensures MergedValue(v.fields[k].val, MergeField(v, tree, skipName, base, k).value, tree, skipName, JoinPath(base, v.fields[k].key))
    decreases v, 0
  {
    var f := v.fields[k];
    if !IsRecordFile(f.val) && f.val.Obj? {
      MergeObjectShape(f.val, tree, skipName, JoinPath(base, f.key));
    }
  }

  /** The merged tree has the shape of the user's tree: the same keys in the same order at every
      level; every file (an object with `content` and `last-modifier`) has the uuid found for its
      path (or `""`) and `modified: false` and keeps its other fields; every other value is copied. */
  lemma MergeShape(metadata: Value, tree: Value, skipName: bool, r: Value)
    requires MergeNode(metadata, tree, skipName, "") == Ok(r)
    ensures MergedObject(Keyed(metadata), r, tree, skipName, "")
  {
    MergeObjectShape(Keyed(metadata), tree, skipName, "");
  }

  /** With the corrected search, every file of the merged tree carries a uuid that is either `""`
      or the uuid of an entry the remote decoder writes at that file's own path. */
  lemma CorrectedMergedFile(x: Value, y: Value, tree: Value, path: string)
    requires IsRecordFile(x) && MergedValue(x, y, tree, true, path)
    ensures Get(y, "uuid").Some? && Get(y, "uuid").value.Str?
    ensures var u := Get(y, "uuid").value.s; u == "" || IsWrite(tree, "", (path, u))
  {
    var u := FindUuidForPath(tree, Split(path)).value;
    MarkFileFields(x, u);
    if u != "" {
      FindUuidForPathSound(tree, Split(path), u);
      JoinSplit(path);
    }
  }

  /** Merging a one-key object gives that key with its merged value. */
  lemma MergeOneKey(v: Value, tree: Value, skipName: bool, base: string, x: Value)
    requires v.Obj? && |v.fields| == 1 && MergeField(v, tree, skipName, base, 0) == Ok(x)
    ensures MergeNode(v, tree, skipName, base) == Ok(Obj([Field(v.fields[0].key, x)]))
  {
    assert MergeUpTo(v, tree, skipName, base, 0) == Ok([]);
    MergeUpToNext(v, tree, skipName, base, 1);
    assert [] + [Field(v.fields[0].key, x)] == [Field(v.fields[0].key, x)];
  }

  /** The user's tree `{docs: {docs: file}}` merged against a remote tree whose search for
      `docs/docs` gives `u`: the file is marked with `u`. */
  lemma MergeDocsDocs(file: Value, tree: Value, skipName: bool, u: string)
    requires IsRecordFile(file) && SearchUuid(tree, ["docs", "docs"], skipName) == Ok(u)
    ensures MergeNode(Obj([Field("docs", Obj([Field("docs", file)]))]), tree, skipName, "")
      == Ok(Obj([Field("docs", Obj([Field("docs", MarkFile(file, u))]))]))
  {
    var folder := Obj([Field("docs", file)]);
    var metadata := Obj([Field("docs", folder)]);
    assert NoSeparator("docs");
    SplitSegment("docs");
    SplitPrefix("docs", "docs");
    assert Split(JoinPath("docs", "docs")) == ["docs", "docs"];
    assert MergeField(folder, tree, skipName, "docs", 0) == Ok(MarkFile(file, u));
    MergeOneKey(folder, tree, skipName, "docs", MarkFile(file, u));
    assert "docs"[0] != "content"[0];
    assert folder.fields[1..] == [];
    assert Lookup(folder.fields, "content") == None;
    MergeOneKey(metadata, tree, skipName, "", Obj([Field("docs", MarkFile(file, u))]));
  }

  /** A string remote tree is searched by character position: the path `a` in the tree `"ab"`
      finds the uuid `"0"`, with either search. */
  lemma StringRootSearch()
    ensures FindUuidForPathAsWritten(Str("ab"), ["a"]) == Ok("0")
    ensures FindUuidForPath(Str("ab"), ["a"]) == Ok("0")
  {
    KeyedString();
    var node := Keyed(Str("ab"));
    assert FindUuidFrom(node, ["a"], 0, 0, false) == Ok("0");
    assert FindUuidFrom(node, ["a"], 0, 0, true) == Ok("0");
  }

  /** Keys whose values are not objects are copied as they are, in order. */
  lemma {:induction false} MergeUpToScalars(v: Value, tree: Value, skipName: bool, base: string, n: nat)
    requires v.Obj? && n <= |v.fields|
    requires forall i :: 0 <= i < n ==> !v.fields[i].val.Obj?
    ensures MergeUpTo(v, tree, skipName, base, n) == Ok(v.fields[..n])
  {
    if n > 0 {
      MergeUpToScalars(v, tree, skipName, base, n - 1);
      assert v.fields[..n] == v.fields[..n - 1] + [v.fields[n - 1]];
    }
  }

  /** A string user tree is copied by character position: `"ab"` merges into `{0: "a", 1: "b"}`. */
  lemma StringRootMerge(tree: Value, skipName: bool)
    ensures MergeNode(Str("ab"), tree, skipName, "") == Ok(Obj([Field("0", Str("a")), Field("1", Str("b"))]))
  {
    KeyedString();
    var node := Keyed(Str("ab"));
    MergeUpToScalars(node, tree, skipName, "", 2);
    assert node.fields[..2] == node.fields;
  }

  /** The merge as written hands the file `docs/docs` the uuid `"_name"`, which no remote entry has
      (so `modified: false` is recorded against no document), where the corrected search leaves
      the uuid empty. */
  lemma MergeWritesNameKey()
    ensures var file := Obj([Field("content", Str("x")), Field("last-modifier", Str("a"))]);
      var metadata := Obj([Field("docs", Obj([Field("docs", file)]))]);
      var tree := Obj([Field("f1", Obj([Field("_name", Str("docs"))]))]);
      && MergeNode(metadata, tree, false, "") == Ok(Obj([Field("docs", Obj([Field("docs", MarkFile(file, "_name"))]))]))
      && MergeNode(metadata, tree, true, "") == Ok(Obj([Field("docs", Obj([Field("docs", MarkFile(file, ""))]))]))
      && !IsWrite(tree, "", ("docs/docs", "_name"))
  {
    var file := Obj([Field("content", Str("x")), Field("last-modifier", Str("a"))]);
    var tree := Obj([Field("f1", Obj([Field("_name", Str("docs"))]))]);
    FindUuidReturnsNameKey();
    assert Has(file, "content") && Has(file, "last-modifier");
    MergeDocsDocs(file, tree, false, "_name");
    MergeDocsDocs(file, tree, true, "");
  }
}
