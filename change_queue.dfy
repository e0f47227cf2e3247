/** The queue items an update writes: the node lookup by path (`getMetaFromMetadataPath`), the
    de-duplicated list of changed files and the deletion list assembled in `update_project`, and the
    push items and tombstones of `update_cache_array`. */
module ChangeQueue {

  import opened Wrappers
  import opened Json
  import opened Paths
  import opened OrderedMap
  import opened LocalFlatten
  import opened RemoteRebuild
  import opened Reconcile
  import opened Records

  // ---------------------------------------------------------------------------------------------
  // getMetaFromMetadataPath

  /** The node reached from `node` by the keys `parts`, or `null` as soon as a step starts from
      something that is not an object or the key is missing. */
  function MetaAt(node: Value, parts: seq<string>): Value
    decreases parts
  {
    if parts == [] then node
    else if !node.Obj? || !Has(node, parts[0]) then Null
    else MetaAt(Get(node, parts[0]).value, parts[1..])
  }

  /** getMetaFromMetadataPath(path, metadata) */
  method GetMetaFromMetadataPath(path: string, metadata: Value) returns (r: Value)
    ensures r == MetaAt(metadata, Split(path))
  {
    var parts := Split(path);
    var node := metadata;
    var i := 0;
    while i < |parts|
      invariant 0 <= i <= |parts|
      invariant MetaAt(metadata, parts) == MetaAt(node, parts[i..])
    {
      var part := parts[i];
      assert parts[i..][1..] == parts[i + 1..];
      if !node.Obj? || !Has(node, part) {
        return Null;
      }
      node := Get(node, part).value;
      i := i + 1;
    }
    return node;
  }

  /** Keys that paths can be built from and taken apart by again: within an object the keys are
      distinct, and no key is empty or holds a `/`. */
  predicate WellKeyed(v: Value) {
    match v
    case Obj(fs) =>
      && (forall i, j :: 0 <= i < j < |fs| ==> fs[i].key != fs[j].key)
      && (forall i :: 0 <= i < |fs| ==> fs[i].key != "" && NoSeparator(fs[i].key) && WellKeyed(fs[i].val))
    case _ => true
  }

  lemma {:induction false} LookupDistinct(fields: seq<Field>, k: nat)
    requires k < |fields|
    requires forall i, j :: 0 <= i < j < |fields| ==> fields[i].key != fields[j].key
    ensures Lookup(fields, fields[k].key) == Some(fields[k].val)
  {
    if k > 0 {
      assert fields[0].key != fields[k].key;
      var rest := fields[1..];
      assert forall i, j :: 0 <= i < j < |rest| ==> rest[i].key != rest[j].key by {
        forall i, j | 0 <= i < j < |rest| ensures rest[i].key != rest[j].key {
          assert rest[i] == fields[i + 1] && rest[j] == fields[j + 1];
        }
      }
      LookupDistinct(rest, k - 1);
    }
  }

  lemma MetaAtStep(v: Value, k: nat, rest: seq<string>)
    requires v.Obj? && k < |v.fields| && WellKeyed(v)
    ensures MetaAt(v, [v.fields[k].key] + rest) == MetaAt(v.fields[k].val, rest)
  {
    LookupDistinct(v.fields, k);
    assert ([v.fields[k].key] + rest)[1..] == rest;
  }

  /** What a local file found through the positions `idx` is made of: the first key is one the
      flattener follows, and it leads either to the file itself or to a folder holding it. */
  lemma LocalFileAtFirst(v: Value, base: string, idx: seq<nat>, e: LocalEntry)
    requires LocalFileAt(v, base, idx) == Some(e)
    ensures v.Obj? && |idx| > 0 && idx[0] < |v.fields|
    ensures !Skipped(v.fields[idx[0]].key) && v.fields[idx[0]].val.Obj?
    ensures IsLocalFile(v.fields[idx[0]].val) ==> e == EntryOf(JoinPath(base, v.fields[idx[0]].key), v.fields[idx[0]].val)
    ensures !IsLocalFile(v.fields[idx[0]].val) ==> LocalFileAt(v.fields[idx[0]].val, JoinPath(base, v.fields[idx[0]].key), idx[1..]) == Some(e)
  {
  }

  /** A child of a well-keyed object has a usable key and is well-keyed itself. */
  lemma WellKeyedChild(v: Value, k: nat)
    requires v.Obj? && k < |v.fields| && WellKeyed(v)
    ensures v.fields[k].key != "" && NoSeparator(v.fields[k].key) && WellKeyed(v.fields[k].val)
  {
  }

  /** The keys leading to a local file are exactly the segments its path adds to `base`, and
      following them leads to that file's node. */
  lemma {:induction false} LocalFileKeys(v: Value, base: string, idx: seq<nat>, e: LocalEntry)
    returns (keys: seq<string>, node: Value)
    requires WellKeyed(v) && LocalFileAt(v, base, idx) == Some(e)
    ensures Split(e.path) == (if base == "" then [] else Split(base)) + keys
    ensures MetaAt(v, keys) == node
    ensures IsLocalFile(node) && EntryOf(e.path, node) == e
    decreases |idx|
  {
    LocalFileAtFirst(v, base, idx, e);
    var k := idx[0];
    var f := v.fields[k];
    WellKeyedChild(v, k);
    var path := JoinPath(base, f.key);
    var prefix := if base == "" then [] else Split(base);
    SplitJoinPath(base, f.key);
    if IsLocalFile(f.val) {
      keys, node := [f.key], f.val;
      MetaAtStep(v, k, []);
      assert [f.key] + [] == keys;
    } else {
      var rest;
      rest, node := LocalFileKeys(f.val, path, idx[1..], e);
      keys := [f.key] + rest;
      MetaAtStep(v, k, rest);
      AppendAssoc(prefix, [f.key], rest);
    }
  }

  /** For every entry of the local flat list of a well-keyed tree, the lookup by its path finds
      the file node it was made from. */
  lemma MetaAtLocalFile(tree: Value, e: LocalEntry)
    requires WellKeyed(tree) && FileEntry(tree, "", e)
    ensures IsLocalFile(MetaAt(tree, Split(e.path))) && EntryOf(e.path, MetaAt(tree, Split(e.path))) == e
  {
    var idx :| LocalFileAt(tree, "", idx) == Some(e);
    var keys, node := LocalFileKeys(tree, "", idx, e);
    assert [] + keys == keys;
  }

  // ---------------------------------------------------------------------------------------------
  // The changed files and their de-duplication (update_project)

  /** An element of `cache_items`: a local entry (added or modified) or a rename. */
  datatype Change = Local(entry: LocalEntry) | Renamed(rename: Rename)

  /** `item.path || item.newPath`; `None` is `undefined`, which a local entry with an empty path
      gives. */
  function ChangePath(c: Change): (r: Option<string>)
    ensures c.Renamed? ==> r == Some(c.rename.newPath)
    ensures c.Local? ==> (r.Some? <==> c.entry.path != "") && (r.Some? ==> r.value == c.entry.path)
  {
    match c
    case Local(e) => if e.path != "" then Some(e.path) else None
    case Renamed(x) => Some(x.newPath)
  }

  /** `item.uuid + '|' + (item.path || item.newPath)`. */
  function DedupKey(c: Change): string {
    match c
    case Local(e) => ToStr(e.uuid) + "|" + (if e.path != "" then e.path else "undefined")
    case Renamed(x) => x.uuid + "|" + x.newPath
  }

  function Locals(es: seq<LocalEntry>): (r: seq<Change>)
    ensures |r| == |es| && forall i :: 0 <= i < |es| ==> r[i] == Local(es[i])
  {
    seq(|es|, i requires 0 <= i < |es| => Local(es[i]))
  }

  function RenamedItems(rs: seq<Rename>): (r: seq<Change>)
    ensures |r| == |rs| && forall i :: 0 <= i < |rs| ==> r[i] == Renamed(rs[i])
  {
    seq(|rs|, i requires 0 <= i < |rs| => Renamed(rs[i]))
  }

  /** `[...added, ...modified, ...renamed_or_moved]`. */
  function CacheItems(cmp: Comparison): seq<Change> {
    Locals(cmp.added) + Locals(cmp.modified) + RenamedItems(cmp.renamedOrMoved)
  }

  /** The `seen.set(key, item)` calls, in order. */
  function Keyed(items: seq<Change>): (w: seq<(string, Change)>)
    ensures |w| == |items| && forall i :: 0 <= i < |items| ==> w[i] == (DedupKey(items[i]), items[i])
  {
    seq(|items|, i requires 0 <= i < |items| => (DedupKey(items[i]), items[i]))
  }

  /** The `seen` map after the loop. */
  function Seen(items: seq<Change>): (d: Dict<Change>)
    ensures Valid(d)
  {
    PutAllValid(Empty(), Keyed(items));
    PutAll(Empty(), Keyed(items))
  }

  /** The loop over `cache_items` and `Array.from(seen.values())`. */
  method DedupCacheItems(cacheItems: seq<Change>) returns (deduped: seq<Change>)
    ensures deduped == Values(Seen(cacheItems))
  {
    var seen := Empty<Change>();
    var i := 0;
    while i < |cacheItems|
      invariant 0 <= i <= |cacheItems|
      invariant seen == PutAll(Empty(), Keyed(cacheItems)[..i])
    {
      var item := cacheItems[i];
      var key := DedupKey(item);
      assert Keyed(cacheItems)[..i + 1] == Keyed(cacheItems)[..i] + [(key, item)];
      PutAllSnoc(Empty(), Keyed(cacheItems)[..i], key, item);
      seen := Put(seen, key, item);
      i := i + 1;
    }
    assert Keyed(cacheItems)[..i] == Keyed(cacheItems);
    assert seen == Seen(cacheItems);
    deduped := Values(seen);
  }

  /** Every key of `seen` holds the last item with that key. */
  lemma SeenEntries(items: seq<Change>, k: string)
    ensures k in Seen(items).entries <==> LastWrite(Keyed(items), k).Some?
    ensures k in Seen(items).entries ==>
      Seen(items).entries[k] == LastWrite(Keyed(items), k).value && DedupKey(Seen(items).entries[k]) == k
      && Seen(items).entries[k] in items
  {
    var w := Keyed(items);
    PutAllLookup(Empty(), w, k);
    LastWriteSome(w, k);
    if LastWrite(w, k).Some? {
      var i :| 0 <= i < |w| && w[i] == (k, LastWrite(w, k).value);
      assert w[i] == (DedupKey(items[i]), items[i]);
    }
  }

  /** No two de-duplicated items share a key. */
  lemma DedupDistinct(items: seq<Change>)
    ensures var deduped := Values(Seen(items));
      forall i, j :: 0 <= i < j < |deduped| ==> DedupKey(deduped[i]) != DedupKey(deduped[j])
  {
    var d := Seen(items);
    var deduped := Values(d);
    forall i, j | 0 <= i < j < |deduped| ensures DedupKey(deduped[i]) != DedupKey(deduped[j]) {
      SeenEntries(items, d.order[i]);
      SeenEntries(items, d.order[j]);
    }
  }

  /** An item survives the de-duplication exactly when it is the last item with its key; and
      every key of the input keeps one item. */
  lemma DedupMember(items: seq<Change>, c: Change)
    ensures c in Values(Seen(items)) <==> c in items && LastWrite(Keyed(items), DedupKey(c)) == Some(c)
    ensures c in items ==> exists e :: e in Values(Seen(items)) && DedupKey(e) == DedupKey(c)
  {
    var d := Seen(items);
    var w := Keyed(items);
    var k := DedupKey(c);
    SeenEntries(items, k);
    if c in Values(d) {
      var i :| 0 <= i < |d.order| && Values(d)[i] == c;
      SeenEntries(items, d.order[i]);
    }
    if c in items {
      var i :| 0 <= i < |items| && items[i] == c;
      assert w[i].0 == k;
      LastWriteSome(w, k);
      var j :| 0 <= j < |d.order| && d.order[j] == k;
      assert Values(d)[j] == d.entries[k];
      if LastWrite(w, k) == Some(c) {
        assert Values(d)[j] == c;
      }
    }
  }

  /** The last write to a key is at or after any given write to it. */
  lemma {:induction false} LastWriteAfter<V>(w: seq<(string, V)>, k: string, i: nat)
    requires i < |w| && w[i].0 == k
    ensures LastWrite(w, k).Some?
    ensures exists j :: i <= j < |w| && w[j] == (k, LastWrite(w, k).value)
  {
    if w[|w| - 1].0 != k {
      var w' := w[..|w| - 1];
      LastWriteAfter(w', k, i);
      var j :| i <= j < |w'| && w'[j] == (k, LastWrite(w', k).value);
      assert w[j] == w'[j];
    }
  }

  /** A file that is both modified and renamed or moved is queued once, as the rename: its local
      entry and its rename share the key `uuid|path`, and the rename comes later. */
  lemma RenamedAndModifiedOnce(locals: seq<LocalEntry>, remotes: seq<RemoteEntry>, l: LocalEntry, cmp: Comparison)
    requires l in locals && l.path != "" && Classify(l, remotes) == Modified && RenameOf(l, remotes).Some?
    requires cmp.added == Select(locals, remotes, Added) && cmp.modified == Select(locals, remotes, Modified)
    requires cmp.renamedOrMoved == Renames(locals, remotes)
    ensures Local(l) !in Values(Seen(CacheItems(cmp)))
    ensures exists x :: Renamed(x) in Values(Seen(CacheItems(cmp))) && DedupKey(Renamed(x)) == DedupKey(Local(l))
  {
    var x := RenameOf(l, remotes).value;
    RenameKey(l, remotes);
    RenamesMember(locals, remotes, x);
    var r :| 0 <= r < |cmp.renamedOrMoved| && cmp.renamedOrMoved[r] == x;
    var n := |cmp.added| + |cmp.modified|;
    CacheItemsRenamed(cmp, n + r);
    CacheItemsTail(cmp);
    RenameWins(CacheItems(cmp), n + r, Local(l));
  }

  /** A local item followed by a rename with its key, with only renames after that, loses its place
      in `seen` to a rename. */
  lemma RenameWins(items: seq<Change>, i: nat, c: Change)
    requires i < |items| && items[i].Renamed? && DedupKey(items[i]) == DedupKey(c) && c.Local?
    requires forall m :: i <= m < |items| ==> items[m].Renamed?
    ensures c !in Values(Seen(items))
    ensures exists x :: Renamed(x) in Values(Seen(items)) && DedupKey(Renamed(x)) == DedupKey(c)
  {
    var w := Keyed(items);
    var k := DedupKey(c);
    assert w[i] == (k, items[i]);
    LastWriteAfter(w, k, i);
    var j :| i <= j < |w| && w[j] == (k, LastWrite(w, k).value);
    assert items[j].Renamed?;
    DedupMember(items, c);
    DedupMember(items, items[j]);
  }

  /** Only renames follow the added and the modified entries. */
  lemma CacheItemsTail(cmp: Comparison)
    ensures forall m :: |cmp.added| + |cmp.modified| <= m < |CacheItems(cmp)| ==> CacheItems(cmp)[m].Renamed?
  {
  }

  /** A local entry and the rename it yields share the key `uuid|path`. */
  lemma RenameKey(l: LocalEntry, remotes: seq<RemoteEntry>)
    requires l.path != "" && RenameOf(l, remotes).Some?
    ensures DedupKey(Renamed(RenameOf(l, remotes).value)) == DedupKey(Local(l))
  {
  }

  /** The items after the added and the modified entries are the renames. */
  lemma CacheItemsRenamed(cmp: Comparison, i: nat)
    requires |cmp.added| + |cmp.modified| <= i < |cmp.added| + |cmp.modified| + |cmp.renamedOrMoved|
    ensures |CacheItems(cmp)| == |cmp.added| + |cmp.modified| + |cmp.renamedOrMoved|
    ensures CacheItems(cmp)[i] == Renamed(cmp.renamedOrMoved[i - |cmp.added| - |cmp.modified|])
  {
  }

  // ---------------------------------------------------------------------------------------------
  // The deletion list (update_project)

  /** `[...comparison.deleted, ...renamed_or_moved.map(item => ({path: item.oldPath, uuid: item.uuid}))]`:
      the genuine deletions first, then one per rename for the path it left. */
  function DeletionList(deleted: seq<RemoteEntry>, renames: seq<Rename>): (r: seq<RemoteEntry>)
    ensures |r| == |deleted| + |renames| && r[..|deleted|] == deleted
    ensures forall i :: 0 <= i < |renames| ==> r[|deleted| + i] == RemoteEntry(renames[i].oldPath, renames[i].uuid)
  {
    deleted + seq(|renames|, i requires 0 <= i < |renames| => RemoteEntry(renames[i].oldPath, renames[i].uuid))
  }

  /** An entry is on the deletion list exactly when it is a genuine deletion or the old path and
      uuid of a rename. */
  lemma DeletionListSplit(deleted: seq<RemoteEntry>, renames: seq<Rename>, d: RemoteEntry)
    ensures d in DeletionList(deleted, renames) <==>
      d in deleted || exists x :: x in renames && RemoteEntry(x.oldPath, x.uuid) == d
  {
    var r := DeletionList(deleted, renames);
    if d in r && d !in deleted {
      var i :| 0 <= i < |r| && r[i] == d;
      if i >= |deleted| {
        assert renames[i - |deleted|] in renames;
      }
    }
    if exists x :: x in renames && RemoteEntry(x.oldPath, x.uuid) == d {
      var x :| x in renames && RemoteEntry(x.oldPath, x.uuid) == d;
      var j :| 0 <= j < |renames| && renames[j] == x;
      assert r[|deleted| + j] == d;
    }
    if d in deleted {
      var i :| 0 <= i < |deleted| && deleted[i] == d;
      assert r[..|deleted|][i] == d;
    }
  }

  /** An entry is on the deletion list of a comparison exactly when it is a remote entry whose uuid
      no local entry carries, or the path some rename moved a file away from, with that file's
      uuid; either way it is an entry of the remote list. */
  lemma DeletionListMember(locals: seq<LocalEntry>, remotes: seq<RemoteEntry>, d: RemoteEntry)
    ensures d in DeletionList(Deleted(locals, remotes), Renames(locals, remotes)) <==>
      (d in remotes && !KnownLocally(locals, d.uuid))
      || exists l :: l in locals && RenameOf(l, remotes).Some?
                     && RemoteEntry(RenameOf(l, remotes).value.oldPath, RenameOf(l, remotes).value.uuid) == d
    ensures d in DeletionList(Deleted(locals, remotes), Renames(locals, remotes)) ==> d in remotes
  {
    var ren := Renames(locals, remotes);
    DeletionListSplit(Deleted(locals, remotes), ren, d);
    DeletedMember(locals, remotes, d);
    if exists x :: x in ren && RemoteEntry(x.oldPath, x.uuid) == d {
      var x :| x in ren && RemoteEntry(x.oldPath, x.uuid) == d;
      RenamesMember(locals, remotes, x);
      var l :| l in locals && RenameOf(l, remotes) == Some(x);
      RenameOfExact(l, remotes);
    }
    if exists l :: l in locals && RenameOf(l, remotes).Some?
                   && RemoteEntry(RenameOf(l, remotes).value.oldPath, RenameOf(l, remotes).value.uuid) == d {
      var l :| l in locals && RenameOf(l, remotes).Some?
               && RemoteEntry(RenameOf(l, remotes).value.oldPath, RenameOf(l, remotes).value.uuid) == d;
      RenamesMember(locals, remotes, RenameOf(l, remotes).value);
    }
  }

  // ---------------------------------------------------------------------------------------------
  // update_cache_array

  /** `meta && meta.hasOwnProperty("content")`. */
  predicate HasContent(meta: Value) {
    meta.Obj? && Has(meta, "content")
  }

  /** The filter over the items: those whose node has `content`; computing the path of an item
      whose path is `undefined` throws. */
  function Relevant(items: seq<Change>, metadata: Value): Result<seq<Change>> {
    if items == [] then Ok([])
    else
      match Relevant(items[..|items| - 1], metadata)
      case TypeError => TypeError
      case Ok(pre) =>
        var c := items[|items| - 1];
        match ChangePath(c)
        case None => TypeError
        case Some(p) => Ok(pre + if HasContent(MetaAt(metadata, Split(p))) then [c] else [])
  }

  /** The push item for one kept item, when its node and its record are both there. */
  function PushOf(c: Change, metadata: Value, newLastModified: map<string, Record>, now: int): seq<QueueItem> {
    match ChangePath(c)
    case None => []
    case Some(p) =>
      var meta := MetaAt(metadata, Split(p));
      if Truthy(meta) && p in newLastModified then
        [Push(Or(Get(meta, "content"), Str("")), p, now, newLastModified[p].uuidCache,
              Some(Or(Get(meta, "uuid"), Str(""))), Some(Or(Get(meta, "modified"), Bool(false))))]
      else []
  }

  function Pushes(items: seq<Change>, metadata: Value, newLastModified: map<string, Record>, now: int): seq<QueueItem> {
    if items == [] then []
    else
      Pushes(items[..|items| - 1], metadata, newLastModified, now)
        + PushOf(items[|items| - 1], metadata, newLastModified, now)
  }

  /** The tombstone for one deletion; an empty path makes `item.path || item.newPath` undefined, and
      the lookup by that path throws. */
  function TombstoneOf(d: RemoteEntry, metadata: Value): Result<QueueItem> {
    if d.path == "" then TypeError
    else
      var meta := MetaAt(metadata, Split(d.path));
      Ok(Tombstone(d.path, d.uuid, if HasContent(meta) then Some(Or(Get(meta, "modified"), Bool(false))) else None))
  }

  function Tombstones(toDelete: seq<RemoteEntry>, metadata: Value): Result<seq<QueueItem>> {
    if toDelete == [] then Ok([])
    else
      match Tombstones(toDelete[..|toDelete| - 1], metadata)
      case TypeError => TypeError
      case Ok(pre) =>
        match TombstoneOf(toDelete[|toDelete| - 1], metadata)
        case TypeError => TypeError
        case Ok(t) => Ok(pre + [t])
  }

  /** The queue `update_cache_array` writes: the push items, then the tombstones. */
  function CacheQueue(relevantItems: seq<Change>, toDelete: seq<RemoteEntry>, metadata: Value,
                      newLastModified: map<string, Record>, now: int): Result<seq<QueueItem>> {
    match Relevant(relevantItems, metadata)
    case TypeError => TypeError
    case Ok(kept) =>
      match Tombstones(toDelete, metadata)
      case TypeError => TypeError
      case Ok(ts) => Ok(Pushes(kept, metadata, newLastModified, now) + ts)
  }

  /** update_cache_array(relevantItems, to_delete, metadata, new_last_modified), returning the array
      it writes; `now` is the clock reading. */
  method UpdateCacheArray(relevantItems: seq<Change>, toDelete: seq<RemoteEntry>, metadata: Value,
                          newLastModified: map<string, Record>, now: int) returns (r: Result<seq<QueueItem>>)
    ensures r == CacheQueue(relevantItems, toDelete, metadata, newLastModified, now)
  {
    var filtered := FilterRelevant(relevantItems, metadata);
    if filtered.TypeError? {
      return TypeError;
    }
    var cacheArray := PushItems(filtered.value, metadata, newLastModified, now);
    var tombstones := TombstoneItems(toDelete, metadata);
    if tombstones.TypeError? {
      return TypeError;
    }
    return Ok(cacheArray + tombstones.value);
  }

  /** One deletion's queue entry: the tombstone, with the deleted file's `modified` when its
      metadata node still has content. */
  method MakeTombstone(item: RemoteEntry, metadata: Value) returns (r: Result<QueueItem>)
    ensures r == TombstoneOf(item, metadata)
  {
    if item.path == "" {
      return TypeError;
    }
    var meta := GetMetaFromMetadataPath(item.path, metadata);
    var modified := if HasContent(meta) then Some(Or(Get(meta, "modified"), Bool(false))) else None;
    return Ok(Tombstone(item.path, item.uuid, modified));
  }

  /** `to_delete.forEach(...)`, pushing one tombstone per deletion. */
  method TombstoneItems(toDelete: seq<RemoteEntry>, metadata: Value) returns (r: Result<seq<QueueItem>>)
    ensures r == Tombstones(toDelete, metadata)
  {
    var ts := [];
    var i := 0;
    while i < |toDelete|
      invariant 0 <= i <= |toDelete|
      invariant Tombstones(toDelete[..i], metadata) == Ok(ts)
    {
      TombstonesStep(toDelete, metadata, i, ts);
      var t := MakeTombstone(toDelete[i], metadata);
      if t.TypeError? {
        TombstonesThrow(toDelete, metadata, i + 1);
        return TypeError;
      }
      ts := ts + [t.value];
      i := i + 1;
    }
    assert toDelete[..i] == toDelete;
    return Ok(ts);
  }

  /** `relevantItems.filter(...)`. */
  method FilterRelevant(relevantItems: seq<Change>, metadata: Value) returns (r: Result<seq<Change>>)
    ensures r == Relevant(relevantItems, metadata)
  {
    var kept := [];
    var i := 0;
    while i < |relevantItems|
      invariant 0 <= i <= |relevantItems|
      invariant Relevant(relevantItems[..i], metadata) == Ok(kept)
    {
      assert relevantItems[..i + 1][..i] == relevantItems[..i];
      var item := relevantItems[i];
      assert relevantItems[..i + 1][i] == item;
      var path := ChangePath(item);
      if path.None? {
        RelevantThrows(relevantItems, metadata, i + 1);
        return TypeError;
      }
      var meta := GetMetaFromMetadataPath(path.value, metadata);
      var x := if HasContent(meta) then [item] else [];
      assert Relevant(relevantItems[..i + 1], metadata) == Ok(kept + x);
      kept := kept + x;
      i := i + 1;
    }
    assert relevantItems[..i] == relevantItems;
    return Ok(kept);
  }

  /** `filteredRelevantItems.forEach(...)`, pushing onto a fresh array. */
  method PushItems(kept: seq<Change>, metadata: Value, newLastModified: map<string, Record>, now: int)
    returns (cacheArray: seq<QueueItem>)
    ensures cacheArray == Pushes(kept, metadata, newLastModified, now)
  {
    cacheArray := [];
    var i := 0;
    while i < |kept|
      invariant 0 <= i <= |kept|
      invariant cacheArray == Pushes(kept[..i], metadata, newLastModified, now)
    {
      assert kept[..i + 1][..i] == kept[..i];
      var item := kept[i];
      var path := ChangePath(item);
      if path.Some? {
        var meta := GetMetaFromMetadataPath(path.value, metadata);
        if Truthy(meta) && path.value in newLastModified {
          var lm := newLastModified[path.value];
          cacheArray := cacheArray + [Push(Or(Get(meta, "content"), Str("")), path.value, now, lm.uuidCache,
                                           Some(Or(Get(meta, "uuid"), Str(""))),
                                           Some(Or(Get(meta, "modified"), Bool(false))))];
        }
      }
      i := i + 1;
    }
    assert kept[..i] == kept;
  }

  lemma {:induction false} RelevantThrows(items: seq<Change>, metadata: Value, n: nat)
    requires n <= |items| && Relevant(items[..n], metadata) == TypeError
    ensures Relevant(items, metadata) == TypeError
    decreases |items| - n
  {
    if n < |items| {
      assert items[..n + 1][..n] == items[..n];
      RelevantThrows(items, metadata, n + 1);
    } else {
      assert items[..n] == items;
    }
  }

  lemma TombstonesStep(toDelete: seq<RemoteEntry>, metadata: Value, i: nat, ts: seq<QueueItem>)
    requires i < |toDelete| && Tombstones(toDelete[..i], metadata) == Ok(ts)
    ensures Tombstones(toDelete[..i + 1], metadata) ==
      match TombstoneOf(toDelete[i], metadata)
      case TypeError => TypeError
      case Ok(t) => Ok(ts + [t])
  {
    assert toDelete[..i + 1][..i] == toDelete[..i];
  }

  lemma {:induction false} TombstonesThrow(toDelete: seq<RemoteEntry>, metadata: Value, n: nat)
    requires n <= |toDelete| && Tombstones(toDelete[..n], metadata) == TypeError
    ensures Tombstones(toDelete, metadata) == TypeError
    decreases |toDelete| - n
  {
    if n < |toDelete| {
      assert toDelete[..n + 1][..n] == toDelete[..n];
      TombstonesThrow(toDelete, metadata, n + 1);
    } else {
      assert toDelete[..n] == toDelete;
    }
  }

  /** The filter throws exactly when some item is a local entry with an empty path; otherwise it
      keeps, in order, the items whose node has `content`. */
  lemma {:induction false} RelevantExact(items: seq<Change>, metadata: Value)
    ensures Relevant(items, metadata).Ok? <==> forall c :: c in items ==> ChangePath(c).Some?
    ensures Relevant(items, metadata).Ok? ==> forall c :: c in Relevant(items, metadata).value <==>
      c in items && HasContent(MetaAt(metadata, Split(ChangePath(c).value)))
  {
    if items != [] {
      var init := items[..|items| - 1];
      RelevantExact(init, metadata);
      assert items == init + [items[|items| - 1]];
    }
  }

  /** A push item is for a path whose metadata node is truthy and that has a record, and carries
      the clock reading, that record's `uuid_cache`, and the node's `content` (or `""`), `uuid` (or
      `""`) and `modified` (or `false`). */
  ghost predicate PushFor(q: QueueItem, metadata: Value, newLastModified: map<string, Record>, now: int) {
    var meta := MetaAt(metadata, Split(q.path));
    && q.Push? && q.path in newLastModified && Truthy(meta)
    && q == Push(Or(Get(meta, "content"), Str("")), q.path, now, newLastModified[q.path].uuidCache,
                 Some(Or(Get(meta, "uuid"), Str(""))), Some(Or(Get(meta, "modified"), Bool(false))))
  }

  /** The push items are exactly one per kept item whose node is there and whose path has a
      record, each built from that node and that record. */
  lemma {:induction false} PushesExact(kept: seq<Change>, metadata: Value, newLastModified: map<string, Record>, now: int)
    ensures forall q :: q in Pushes(kept, metadata, newLastModified, now) ==>
      PushFor(q, metadata, newLastModified, now) && exists c :: c in kept && ChangePath(c) == Some(q.path)
    ensures forall c :: (c in kept && ChangePath(c).Some? && Truthy(MetaAt(metadata, Split(ChangePath(c).value)))
                         && ChangePath(c).value in newLastModified) ==>
      exists q :: q in Pushes(kept, metadata, newLastModified, now) && q.path == ChangePath(c).value
    ensures |Pushes(kept, metadata, newLastModified, now)| <= |kept|
  {
    if kept != [] {
      var init := kept[..|kept| - 1];
      var c := kept[|kept| - 1];
      PushesExact(init, metadata, newLastModified, now);
      assert kept == init + [c];
      var ps := Pushes(kept, metadata, newLastModified, now);
      var pre := Pushes(init, metadata, newLastModified, now);
      assert ps == pre + PushOf(c, metadata, newLastModified, now);
      forall q | q in ps
        ensures PushFor(q, metadata, newLastModified, now) && exists c' :: c' in kept && ChangePath(c') == Some(q.path)
      {
        if q in pre {
          var c' :| c' in init && ChangePath(c') == Some(q.path);
          assert c' in kept;
        } else {
          assert c in kept;
        }
      }
    }
  }

  /** `t` is the tombstone for deletion entry `d`: it has the entry's path and uuid, and a
      `modified` field exactly when the node at that path has `content`, holding that node's
      `modified` (or `false`). */
  predicate TombstoneFor(t: QueueItem, d: RemoteEntry, metadata: Value) {
    var meta := MetaAt(metadata, Split(d.path));
    && t.Tombstone? && t.path == d.path && t.deletedUuid == d.uuid
    && (t.modified.Some? <==> HasContent(meta))
    && (t.modified.Some? ==> t.modified.value == Or(Get(meta, "modified"), Bool(false)))
  }

  /** The tombstone list throws exactly when a deletion has an empty path. */
  lemma {:induction false} TombstonesOk(toDelete: seq<RemoteEntry>, metadata: Value)
    ensures Tombstones(toDelete, metadata).Ok? <==> forall i :: 0 <= i < |toDelete| ==> toDelete[i].path != ""
  {
    if toDelete != [] {
      var init := toDelete[..|toDelete| - 1];
      TombstonesOk(init, metadata);
      assert forall i :: 0 <= i < |init| ==> init[i] == toDelete[i];
    }
  }

  /** One tombstone per deletion entry, in order, each the tombstone for that entry. */
  lemma {:induction false} TombstonesExact(toDelete: seq<RemoteEntry>, metadata: Value)
    requires Tombstones(toDelete, metadata).Ok?
    ensures var ts := Tombstones(toDelete, metadata).value;
      |ts| == |toDelete| && forall i :: 0 <= i < |ts| ==> TombstoneFor(ts[i], toDelete[i], metadata)
  {
    if toDelete != [] {
      var init := toDelete[..|toDelete| - 1];
      var d := toDelete[|toDelete| - 1];
      TombstonesExact(init, metadata);
      var pre := Tombstones(init, metadata).value;
      var t := TombstoneOf(d, metadata).value;
      assert TombstoneFor(t, d, metadata);
      var ts := Tombstones(toDelete, metadata).value;
      assert ts == pre + [t];
      forall i | 0 <= i < |ts| ensures TombstoneFor(ts[i], toDelete[i], metadata) {
        if i < |pre| {
          assert ts[i] == pre[i] && toDelete[i] == init[i];
        }
      }
    }
  }

  /** `update_cache_array` throws exactly when an item has no path (`undefined`) or a deletion
      has an empty one. */
  lemma CacheQueueThrows(relevantItems: seq<Change>, toDelete: seq<RemoteEntry>, metadata: Value,
                         newLastModified: map<string, Record>, now: int)
    ensures CacheQueue(relevantItems, toDelete, metadata, newLastModified, now).Ok? <==>
      (forall c :: c in relevantItems ==> ChangePath(c).Some?)
      && (forall i :: 0 <= i < |toDelete| ==> toDelete[i].path != "")
  {
    RelevantExact(relevantItems, metadata);
    TombstonesOk(toDelete, metadata);
  }

  lemma CacheQueueOrder(relevantItems: seq<Change>, toDelete: seq<RemoteEntry>, metadata: Value,
                        newLastModified: map<string, Record>, now: int)
    requires CacheQueue(relevantItems, toDelete, metadata, newLastModified, now).Ok?
    ensures var q := CacheQueue(relevantItems, toDelete, metadata, newLastModified, now).value;
      forall i, j :: 0 <= i < j < |q| && q[j].Push? ==> q[i].Push?
  {
    var kept := Relevant(relevantItems, metadata).value;
    PushesExact(kept, metadata, newLastModified, now);
    TombstonesExact(toDelete, metadata);
    var ps := Pushes(kept, metadata, newLastModified, now);
    assert forall i :: 0 <= i < |ps| ==> ps[i] in ps;
  }

  /** A local file of a well-keyed tree that is queued and has a record gets a push item carrying
      that file node's own `uuid`. */
  lemma LocalFilePushed(tree: Value, e: LocalEntry, items: seq<Change>, newLastModified: map<string, Record>, now: int)
    requires WellKeyed(tree) && FileEntry(tree, "", e) && e.path != "" && e.path in newLastModified
    requires Local(e) in items && Relevant(items, tree).Ok?
    ensures exists q :: (q in Pushes(Relevant(items, tree).value, tree, newLastModified, now)
      && q.path == e.path && q.Push? && q.uuid == Some(Or(Some(e.uuid), Str("")))
      && q.uuidCache == newLastModified[e.path].uuidCache)
  {
    MetaAtLocalFile(tree, e);
    var meta := MetaAt(tree, Split(e.path));
    assert meta.Obj? && Truthy(meta) && HasContent(meta);
    var c := Local(e);
    assert ChangePath(c) == Some(e.path);
    RelevantExact(items, tree);
    var kept := Relevant(items, tree).value;
    assert c in kept;
    PushesExact(kept, tree, newLastModified, now);
    assert exists q :: q in Pushes(kept, tree, newLastModified, now) && q.path == ChangePath(c).value;
    var q :| q in Pushes(kept, tree, newLastModified, now) && q.path == e.path;
    assert PushFor(q, tree, newLastModified, now);
  }
}
