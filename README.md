# Tree_Realtime reconciliation engine, modelled in Dafny

Tree_Realtime keeps a user's project tree in sync with a Firestore copy. The user's tree is a JSON
object of folders and files: a file is an object with `uuid` and `content`, and a folder is any other
object. The remote copy is a compact tree keyed by uuid. In it, a string is a file name and an
object with `_name` is a folder. On every update the browser code works in these steps:

1. It flattens the local tree into `(path, uuid, modified)` entries (`getData_from_metadata`).
2. It decodes the remote tree into `path -> {uuid}` (`rebuildFirestoreAsMetadata`) and keeps the
   file paths (`flatMetadataToList`).
3. It diffs the two lists by uuid into unchanged, modified, added, deleted and renamed-or-moved
   (`compareFileLists`).
4. It brings the stored `path -> record` last-modified index up to date (`update_last_modified`).
5. It deduplicates the changed items and builds the queue of push items and tombstones that a
   back-end drains (`update_project`, `update_cache_array`).

When a project is opened, a worker builds the first index and the first queue
(`generateLastModifiedMap`, `generateCacheArray`). The page then polls the queue until the items
of the index are gone (`checkItemsArePushedAndShowToast`). It then writes the remote uuids back into
the user's tree (`findUuidForPath`, `mergeUuidAndModifiedToMetadata`).

The Dafny project models that in-memory logic. There is one module per stage:

- `Json`: JSON values (objects keep their key order) and JavaScript truthiness, `||`, `String(x)` and `trim() === ""`.
- `Paths`: joining and splitting slash paths.
- `OrderedMap`: a JavaScript object or `Map` filled by assignment. It keeps first insertion position and last value.
- `LocalFlatten`, `RemoteRebuild`, `Reconcile`, `Records`, `IndexMerge`, `ChangeQueue`, `DrainPoll`, `MergeBack`: the stages above.

Each JavaScript function that builds its result in loops is a Dafny `method` with the same loops.
It is proved equal to a recursive specification function, and the properties are lemmas about that
function. A JavaScript throw (`"uuid" in null`, `null._name`, `path.split` on `undefined`) is the
`TypeError` case of a `Result`.

A `for...in` loop walks the keys `Json.Keyed` gives: an object's own fields, a string's character
positions `"0"`, `"1"`, ... (so a remote or local tree that is a string is decoded, searched and
merged character by character), and nothing for any other value.

`findUuidForPath` is modelled twice: as written, and with the `_name` key of folders skipped (see
"## Findings"). The merge takes a flag choosing the search; `MergeUuidAndModifiedToMetadata` uses
the search as written, as the source does, and the merge lemmas are stated for both.

The clock and `crypto.randomUUID()` are parameters. `now` is the time reading, and `ids: nat ->
string` with a cursor `next` is the supply of fresh ids. The queue document fetches of the poller
are a parameter `fetch: nat -> Snapshot`.

## Model

| member | source | states |
|---|---|---|
| Json.KeyedString | main.js:738 | `for...in` over the string `"ab"` visits the key `"0"` holding `"a"`, then `"1"` holding `"b"` |
| Paths.SplitJoinPath | main.js:136 | splitting `base/key` (or `key` for an empty base) at `/` gives the segments of `base` followed by `key`, and the joined path is never empty |
| Paths.SplitJoin | main.js:261 | splitting a `/`-join of separator-free segments gives the segments back |
| Paths.JoinSplit | main.js:772-773 | joining the pieces of `split("/")` gives the string back, for every string |
| Paths.LastSegment | worker.js:85-88 | the last segment of `base/key` is `key` when the key holds no `/` |
| OrderedMap.PutAllLookup | main.js:169-190 | after a series of assignments a key holds its last written value; unwritten keys keep theirs |
| OrderedMap.AssignFresh | main.js:188-190 | `Object.assign(result, subResult)` of a freshly built object does the same writes as building in place |
| OrderedMap.ValuesPut | main.js:456-459 | `m.set(k, v)` then `Array.from(m.values())`: a new key's value goes after all others; an existing key's value is replaced where it stands and nothing moves |
| LocalFlatten.GetDataFromMetadata | main.js:129-154 | the loop returns the flattening of the tree, or throws exactly when the flattening throws |
| LocalFlatten.FlattenExact | main.js:129-154 | the list holds exactly the reachable files: objects with `uuid` and `content`, under the `/`-join of their keys, with their `uuid` and `modified` read as `true` or `"true"`; skipped keys are never descended into |
| LocalFlatten.NullFreeFlattens | main.js:138-139 | a tree with no `null` never throws |
| LocalFlatten.NullChildThrows | main.js:138-139 | a `null` under a key that is not skipped makes the call throw |
| RemoteRebuild.FolderName | main.js:170-172 | a folder's name in a path is never empty, since its `_name` is truthy |
| RemoteRebuild.RebuildFirestoreAsMetadata | main.js:160-197 | the loops (including the one-key subtree recursion) build the dictionary of the decoder's writes, or throw when they do; a string tree is walked by character position |
| RemoteRebuild.DecodeTopKeys | main.js:163-194 | the outer `for...in` loop over an object's keys does that object's writes in order, or throws when they do |
| RemoteRebuild.StringTreeWrites | main.js:163-167 | the tree `"ab"` decodes to `a` with uuid `"0"` and `b` with uuid `"1"`, as `for...in` over a string visits its positions |
| RemoteRebuild.WritesExact | main.js:163-194 | the writes are exactly one per string (at `parent/name`, uuid = its key) and one per folder with truthy `_name` reachable through folders; other objects are passed over with all below them |
| RemoteRebuild.RebuildEntries | main.js:160-197 | the result is well formed; a path is a key iff some write targets it, and its uuid is one written there |
| RemoteRebuild.FlatMetadataToList | main.js:378-396 | the list is the file filter in key order; an entry is in it iff its path holds a `.`, its uuid is non-empty and it is the path's uuid; no path repeats |
| RemoteRebuild.RemoteFilesMember | main.js:381-393 | membership in the filtered prefix, both directions |
| RemoteRebuild.RemoteFilesDistinct | main.js:381-393 | the filtered list never repeats a path |
| Reconcile.CompareFileLists | main.js:202-256 | the five result arrays are the per-class selections of the local list, the renames and the deletions, in list order |
| Reconcile.FindRemote | main.js:211 | `firestoreByUuid[uuid]` is missing iff no remote entry has that uuid; when present it is a remote entry with that uuid |
| Reconcile.RemotesByUuid | main.js:211 | the uuid-keyed map holds a uuid iff a remote entry has it, with the entry `Object.fromEntries` keeps |
| Reconcile.LocalsByUuid | main.js:212 | the uuid-keyed map holds a string iff some local uuid turns into it |
| Reconcile.Partition | main.js:216-246 | unchanged, modified and added together are a permutation of the local list |
| Reconcile.SelectMember | main.js:216-246 | an entry is in a class's array iff it is a local entry of that class |
| Reconcile.ClassifyExact | main.js:220-245 | added iff the uuid is not a non-blank string or no remote entry has it; modified iff matched and flagged modified |
| Reconcile.RenameOfExact | main.js:227-236 | a rename is reported iff the uuid is matched at another remote path; it carries the uuid, the remote path and the local path |
| Reconcile.RenamesMember | main.js:216-236 | a rename is in the array iff some local entry yields it |
| Reconcile.DeletedMember | main.js:248-253 | a remote entry is deleted iff no local uuid turns into its uuid |
| Reconcile.MatchedNotDeleted | main.js:249-253 | a remote entry whose uuid a matched local entry carries is never deleted |
| Records.GenerateLastModifiedMap | worker.js:81-98 | the loop and the `Object.assign` of recursive results build the generated index and advance the id cursor as `LastModifiedMap` does |
| Records.LmUpToNext | worker.js:91 | the id cursor never moves back |
| Records.LastModifiedMapExact | worker.js:81-98 | one record per file path (objects with `content` and `last-modifier`); each record is `_name` = key, the node's `last-modifier`, the clock reading, and the node's truthy `uuid_cache` or a fresh id drawn in this call |
| Records.FileAtPathEndsWithKey | worker.js:85-88 | a record's `_name` is the last segment of its path when the key holds no `/` |
| Records.GenerateCacheArray | worker.js:55-79 | the nested traversal returns the initial queue `CacheArray` |
| Records.Traverse | worker.js:57-76 | the inner traversal appends the items of one subtree to what was pushed before |
| Records.CacheArrayExact | worker.js:55-79 | the queue holds exactly one push item per file with a record: its `content`, its path, the clock reading and the record's `uuid_cache`; files without a record are skipped |
| Records.OpenProject | worker.js:5-9 | `projectData` carries `id`, `title`, `co-authors` and the generated index; `cacheArray` is the queue built from that index |
| Records.OpenConsistent | worker.js:7-9 | every item of the opening queue has a record in the index written with it, with the same `uuid_cache`, and every file gets an item |
| IndexMerge.UpdateLastModified | main.js:279-310 | the four `forEach` loops turn the stored index (or `{}`) into the add, modify, rename, delete composition |
| IndexMerge.AddAllExact | main.js:282-287 | an added path takes its generated record when there is one; nothing else changes |
| IndexMerge.ModifyAllExact | main.js:290-296 | modify never adds or removes a path, and replaces a record only when both old and new exist |
| IndexMerge.RenameAllFrame | main.js:299-305 | a path no rename names is unchanged |
| IndexMerge.RenameAllSources | main.js:299-305 | every record after the renames is the earlier one or the generated one |
| IndexMerge.RenameAllKeeps | main.js:299-305 | a path no rename moves away stays |
| IndexMerge.RenameAllWritesNew | main.js:299-305 | a rename whose old path had a record writes the new path's generated record |
| IndexMerge.RenameAllRemovesOld | main.js:299-305 | a rename whose new path has a record removes the old path, unless another rename writes it |
| IndexMerge.DeleteAllExact | main.js:308-310 | delete removes exactly the deleted paths |
| IndexMerge.MergeFrame | main.js:281-310 | a path none of the four lists names keeps its record or its absence |
| IndexMerge.MergeSources | main.js:281-310 | each merged record is the stored or the generated one, and no deleted path is left |
| IndexMerge.MergeAddedOrModified | main.js:281-310 | an added path, or a modified path that had a record, ends with its generated record unless deleted or moved away |
| IndexMerge.MergeRenamedNew | main.js:281-310 | a renamed file's new path ends with its generated record |
| IndexMerge.MergeRenamedOld | main.js:281-310 | a renamed file's old path ends without a record |
| ChangeQueue.GetMetaFromMetadataPath | main.js:260-270 | the walk returns the node at the split path, or `null` at the first missing segment or non-object |
| ChangeQueue.MetaAtLocalFile | main.js:260-270 | in a tree whose keys are distinct and slash-free, the path of a flattened file leads back to that file's node |
| ChangeQueue.DeletionListSplit | main.js:461-467 | an entry is on the deletion list iff it is a genuine deletion or the `{path: oldPath, uuid}` of a rename |
| ChangeQueue.DeletionListMember | main.js:461-467 | for a comparison's lists, an entry is on the deletion list iff it is a remote entry whose uuid no local entry carries, or the old path and uuid of a file some local entry renamed; every such entry is a remote entry |
| ChangeQueue.DedupCacheItems | main.js:453-459 | the `Map` loop returns the values of the keyed dictionary in first-key order |
| ChangeQueue.SeenEntries | main.js:454-458 | a key is in the `Map` iff some item has it, and holds the last item with that key |
| ChangeQueue.DedupDistinct | main.js:453-459 | no two deduplicated items share a key |
| ChangeQueue.DedupMember | main.js:453-459 | an item survives iff it is the last with its key; every key keeps one item |
| ChangeQueue.RenamedAndModifiedOnce | main.js:446-459 | a file both modified and renamed yields one queue entry, the rename, and not its local entry |
| ChangeQueue.UpdateCacheArray | main.js:321-368 | the array is the push items of the kept items followed by the tombstones, or the call throws |
| ChangeQueue.FilterRelevant | main.js:325-329 | the `filter` loop returns the kept items, or throws when `Relevant` does |
| ChangeQueue.PushItems | main.js:331-349 | the `forEach` loop returns the push items `Pushes` |
| ChangeQueue.MakeTombstone | main.js:352-366 | one deletion's tombstone, or a throw for an `undefined` path |
| ChangeQueue.TombstoneItems | main.js:351-368 | the `forEach` loop returns the tombstone list, or throws when `Relevant` does |
| ChangeQueue.RelevantExact | main.js:325-329 | the filter throws iff an item has no path; an item is kept iff its node has `content` |
| ChangeQueue.PushesExact | main.js:331-349 | each push item comes from a kept item whose node is truthy and whose path has a record, built from that node (`content \|\| ""`, `uuid \|\| ""`, `modified \|\| false`) and that record's `uuid_cache`; every such item yields one; there are at most as many as kept items |
| ChangeQueue.TombstonesOk | main.js:351-368 | the tombstone loop throws iff a deletion has an empty path |
| ChangeQueue.TombstonesExact | main.js:351-368 | one tombstone per deletion, in order, with its path and uuid; `modified` is present iff the node has `content`, and then holds the node's `modified \|\| false` |
| ChangeQueue.CacheQueueThrows | main.js:321-368 | the whole call throws iff an item has no path or a deletion has an empty path |
| ChangeQueue.CacheQueueOrder | main.js:331-368 | every push item comes before every tombstone |
| ChangeQueue.LocalFilePushed | main.js:325-349 | an added or modified local file with a record is pushed with its own uuid and its record's `uuid_cache` |
| DrainPoll.CheckItemsArePushed | main.js:675-727 | between one and ten fetches; every fetch before the last found tracked items; true iff the last fetch found the document and no tracked item; false without a missing document means ten fetches |
| DrainPoll.DrainedWithoutTrackedItems | main.js:689-690 | a queue of tombstones, or with no tracked `uuid_cache`, counts as drained |
| DrainPoll.OpenQueueTracked | main.js:689-690 | the non-empty queue written on open still counts as present for the index written with it |
| MergeBack.FindUuidFromSound | main.js:738-756 | any non-empty uuid the corrected search finds is the uuid the remote decoder writes at that path |
| MergeBack.FindUuidForPathSound | main.js:734-757 | a non-empty uuid found for a path is a write of the rebuilt remote tree at the joined path |
| MergeBack.FindUuidReturnsNameKey | main.js:738-744 | as written, the search returns the `_name` key for a path repeating a folder name; the corrected search does not |
| MergeBack.MarkFileFields | main.js:774-778 | a merged file has `uuid` = the found uuid and `modified: false`, and every other field unchanged |
| MergeBack.MergeUuidAndModifiedToMetadata | main.js:760-789 | the copy is the merge of the tree from the root with `findUuidForPath` as written (`MergeNode` with the flag off) |
| MergeBack.Traverse | main.js:761-787 | the inner `traverse` returns the merge of one node, over the keys `for...in` visits, with the chosen search |
| MergeBack.MergeKey | main.js:764-784 | one key's merged value: a file marked with the chosen search's uuid, an object merged, anything else copied |
| MergeBack.MergeShape | main.js:760-789 | for either search, the merge keeps the shape and key order of the keys `for...in` visits; every file gets that search's uuid for its path and `modified: false`; every other value is kept |
| MergeBack.CorrectedMergedFile | main.js:773-778 | with the corrected search, a merged file's uuid is `""` or the uuid of an entry the remote decoder writes at that file's path |
| MergeBack.MergeWritesNameKey | main.js:738-744 | as written, the merge stamps the file `docs/docs` with uuid `"_name"` under the remote tree `{f1: {_name: "docs"}}`, a uuid no remote entry has; the corrected merge leaves it `""` |
| MergeBack.StringRootSearch | main.js:735-743 | a string remote tree is searched by character position: the path `a` in `"ab"` finds the uuid `"0"` |
| MergeBack.MergeUpToScalars | main.js:782-784 | keys whose values are not objects are copied unchanged and in order |
| MergeBack.StringRootMerge | main.js:762-785 | a string user tree is copied by character position: `"ab"` merges into `{0: "a", 1: "b"}` |

## Left out

- Firestore reads and writes are not modelled. This covers `getDoc`, `setDoc`, `updateDoc`, `deleteDoc`, `open_project`, `delete_project`, `writeCacheToFirestore`, and the fetch and write halves of `update_last_modified` and `update_project`. The model takes the documents they read as inputs and returns what they would write.
- The title and co-author comparison in `update_project` (main.js:408-420) is not modelled. It is a `JSON.stringify` comparison that only decides whether to write those two fields.
- The DOM, `alert`, `showToast`, textarea reads and writes and `JSON.parse` error handling are left out. They are user-interface plumbing.
- Worker messaging (`postMessage`, `onmessage`) and the Timestamp rehydration loops are left out. Only the `open` payload composition (worker.js:5-19) is modelled, as `Records.OpenProject`.
- One clock reading `now` stands for every `Timestamp.now()` and `Date.now()` in a call. The source may read a different time per item.
- `crypto.randomUUID()` is an id supply `ids` with a cursor. The model does not state that the ids differ from each other.
- The poller's `setTimeout` timing is left out. Attempts are counted over a given sequence of fetches.
- The poller's success branch is not modelled inside `DrainPoll.CheckItemsArePushed`. That branch re-reads the project tree and runs the merge. The merge itself is `MergeBack.MergeUuidAndModifiedToMetadata`.
- Json.ToStr: a number is an unbounded integer, so `String(n)` is modelled for integers only. For \|n\| of 1e21 or more JavaScript writes exponent notation, and integers beyond 2^53 are not JavaScript numbers at all; neither is modelled.
- JSON arrays and non-integer numbers are not modelled. JavaScript orders integer-like object keys numerically before other keys; the model keeps keys in the given order.
- Prototype keys are not modelled. `in` and property reads see own keys only.
- An object with a repeated key reads as its first occurrence. A parsed JSON object has no repeated keys.
- MergeBack.MergeShape: the merged object's keys are appended in iteration order rather than assigned by key. This gives the same result because a parsed object has distinct keys.
- MergeBack.FindUuidForPathSound: proves only that a found uuid is right. It does not prove that the search finds every uuid the decoder writes; with repeated names the first match wins.
- The `level` parameter of `findUuidForPath` is unused in the source. The corrected search uses it to tell a folder's keys from the top level.
- ChangeQueue.UpdateCacheArray: a throw is one `TypeError`. The items pushed before it, which the source never writes out, are not modelled.
- ChangeQueue.MetaAtLocalFile: requires keys that are distinct, non-empty and free of `/`. With other keys a flattened path need not lead back to its node.
- ChangeQueue.LocalFilePushed: requires the same key discipline, for the same reason.
- Reconcile.LocalsByUuid: states which keys the map has, not which entry each holds. The source only tests the entry for truthiness, and every entry is an object.
- Set membership in the poller compares `uuid_cache` values structurally. JavaScript compares objects by identity, but a `uuid_cache` is a string in practice.

## Findings

| source | as written | input that shows it | evidently intended | confidence | as-written member | corrected member |
|---|---|---|---|---|---|---|
| main.js:738-744 | inside a folder, the `for...in` loop also visits the `_name` key, whose value is a string, so the folder's name is matched as if it were a file called that name; the merge (main.js:773) then stamps that key on a file as its uuid | remote tree `{f1: {_name: "docs"}}` with a local file at `docs/docs`: the search returns `"_name"` and the merged file gets `uuid: "_name"` | skip `_name` inside a folder, as `rebuildFirestoreAsMetadata` does (main.js:178), so the search returns `""` and every merged uuid is one the decoder writes at that path | high (not executed) | MergeBack.MergeWritesNameKey | MergeBack.CorrectedMergedFile |
