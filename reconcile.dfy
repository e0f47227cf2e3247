/** The reconciler (`compareFileLists`): diffs the local flat list against the remote one by uuid. */
module Reconcile {

  import opened Wrappers
  import opened Json
  import opened LocalFlatten
  import opened RemoteRebuild

  /** `{ uuid, oldPath, newPath }`: a file known remotely whose local path differs. */
  datatype Rename = Rename(uuid: string, oldPath: string, newPath: string)

  /** The five result lists (`unchanged` is a Dafny keyword, hence `unchangedFiles`). */
  datatype Comparison = Comparison(
    unchangedFiles: seq<LocalEntry>,
    modified: seq<LocalEntry>,
    added: seq<LocalEntry>,
    deleted: seq<RemoteEntry>,
    renamedOrMoved: seq<Rename>)

  /** Where a local entry goes. */
  datatype Class = Unchanged | Modified | Added

  /** A usable uuid: a string that is not empty and not only whitespace. */
  predicate UsableUuid(uuid: Value) {
    uuid.Str? && !Blank(uuid.s)
  }

  /** `firestoreByUuid[uuid]`: `Object.fromEntries` keeps, for a repeated uuid, the last entry. */
  function FindRemote(remotes: seq<RemoteEntry>, uuid: string): (r: Option<RemoteEntry>)
    ensures r.Some? ==> r.value in remotes && r.value.uuid == uuid
    ensures r.None? <==> forall i :: 0 <= i < |remotes| ==> remotes[i].uuid != uuid
  {
    if remotes == [] then None
    else if remotes[|remotes| - 1].uuid == uuid then Some(remotes[|remotes| - 1])
    else
      var r := FindRemote(remotes[..|remotes| - 1], uuid);
      assert forall i :: 0 <= i < |remotes| - 1 ==> remotes[..|remotes| - 1][i] == remotes[i];
      r
  }

  /** The class of one local entry. */
  function Classify(l: LocalEntry, remotes: seq<RemoteEntry>): Class {
    if !UsableUuid(l.uuid) then Added
    else match FindRemote(remotes, l.uuid.s)
      case None => Added
      case Some(_) => if l.modified then Modified else Unchanged
  }

  /** The local entries of class `c`, in list order. */
  function Select(locals: seq<LocalEntry>, remotes: seq<RemoteEntry>, c: Class): seq<LocalEntry> {
    if locals == [] then []
    else
      var l := locals[|locals| - 1];
      Select(locals[..|locals| - 1], remotes, c) + (if Classify(l, remotes) == c then [l] else [])
  }

  /** The rename a local entry yields, if any. */
  function RenameOf(l: LocalEntry, remotes: seq<RemoteEntry>): Option<Rename> {
    if !UsableUuid(l.uuid) then None
    else match FindRemote(remotes, l.uuid.s)
      case None => None
      case Some(rf) => if rf.path != l.path then Some(Rename(l.uuid.s, rf.path, l.path)) else None
  }

  function Renames(locals: seq<LocalEntry>, remotes: seq<RemoteEntry>): seq<Rename> {
    if locals == [] then []
    else
      var l := locals[|locals| - 1];
      Renames(locals[..|locals| - 1], remotes)
        + (match RenameOf(l, remotes) case Some(x) => [x] case None => [])
  }

  /** `localByUuid[r.uuid]`: the keys of that object are the local uuids turned into strings. */
  predicate KnownLocally(locals: seq<LocalEntry>, uuid: string) {
    exists i :: 0 <= i < |locals| && ToStr(locals[i].uuid) == uuid
  }

  function Deleted(locals: seq<LocalEntry>, remotes: seq<RemoteEntry>): seq<RemoteEntry> {
    if remotes == [] then []
    else
      var r := remotes[|remotes| - 1];
      Deleted(locals, remotes[..|remotes| - 1]) + (if KnownLocally(locals, r.uuid) then [] else [r])
  }

  /** compareFileLists(localList, firestoreList) */
  method CompareFileLists(localList: seq<LocalEntry>, firestoreList: seq<RemoteEntry>) returns (r: Comparison)
    ensures r.unchangedFiles == Select(localList, firestoreList, Unchanged)
    ensures r.modified == Select(localList, firestoreList, Modified)
    ensures r.added == Select(localList, firestoreList, Added)
    ensures r.renamedOrMoved == Renames(localList, firestoreList)
    ensures r.deleted == Deleted(localList, firestoreList)
  {
    var firestoreByUuid := RemotesByUuid(firestoreList);
    var localByUuid := LocalsByUuid(localList);
    var same, modified, added, renamed := [], [], [], [];
    var i := 0;
    while i < |localList|
      invariant 0 <= i <= |localList|
      invariant same == Select(localList[..i], firestoreList, Unchanged)
      invariant modified == Select(localList[..i], firestoreList, Modified)
      invariant added == Select(localList[..i], firestoreList, Added)
      invariant renamed == Renames(localList[..i], firestoreList)
    {
      var localFile := localList[i];
      SelectStep(localList, firestoreList, Unchanged, i);
      SelectStep(localList, firestoreList, Modified, i);
      SelectStep(localList, firestoreList, Added, i);
      RenamesStep(localList, firestoreList, i);
      if !UsableUuid(localFile.uuid) {
        added := added + [localFile];
      } else if localFile.uuid.s in firestoreByUuid {
        var remoteFile := firestoreByUuid[localFile.uuid.s];
        if remoteFile.path != localFile.path {
          renamed := renamed + [Rename(localFile.uuid.s, remoteFile.path, localFile.path)];
        }
        if localFile.modified {
          modified := modified + [localFile];
        } else {
          same := same + [localFile];
        }
      } else {
        added := added + [localFile];
      }
      i := i + 1;
    }
    assert localList[..i] == localList;
    var deleted := [];
    var j := 0;
    while j < |firestoreList|
      invariant 0 <= j <= |firestoreList|
      invariant deleted == Deleted(localList, firestoreList[..j])
    {
      var remoteFile := firestoreList[j];
      DeletedStep(localList, firestoreList, j);
      if remoteFile.uuid !in localByUuid {
        deleted := deleted + [remoteFile];
      }
      j := j + 1;
    }
    assert firestoreList[..j] == firestoreList;
    return Comparison(same, modified, added, deleted, renamed);
  }

  lemma SelectStep(locals: seq<LocalEntry>, remotes: seq<RemoteEntry>, c: Class, i: nat)
    requires i < |locals|
    ensures Select(locals[..i + 1], remotes, c)
      == Select(locals[..i], remotes, c) + (if Classify(locals[i], remotes) == c then [locals[i]] else [])
  {
    assert locals[..i + 1][..i] == locals[..i];
  }

  lemma RenamesStep(locals: seq<LocalEntry>, remotes: seq<RemoteEntry>, i: nat)
    requires i < |locals|
    ensures Renames(locals[..i + 1], remotes)
      == Renames(locals[..i], remotes) + (match RenameOf(locals[i], remotes) case Some(x) => [x] case None => [])
  {
    assert locals[..i + 1][..i] == locals[..i];
  }

  lemma DeletedStep(locals: seq<LocalEntry>, remotes: seq<RemoteEntry>, j: nat)
    requires j < |remotes|
    ensures Deleted(locals, remotes[..j + 1])
      == Deleted(locals, remotes[..j]) + (if KnownLocally(locals, remotes[j].uuid) then [] else [remotes[j]])
  {
    assert remotes[..j + 1][..j] == remotes[..j];
  }

  /** `Object.fromEntries(firestoreList.map(f => [f.uuid, f]))` */
  method RemotesByUuid(remotes: seq<RemoteEntry>) returns (m: map<string, RemoteEntry>)
    ensures forall u :: u in m <==> FindRemote(remotes, u).Some?
    ensures forall u :: u in m ==> m[u] == FindRemote(remotes, u).value
  {
    m := map[];
    var i := 0;
    while i < |remotes|
      invariant 0 <= i <= |remotes|
      invariant forall u :: u in m <==> FindRemote(remotes[..i], u).Some?
      invariant forall u :: u in m ==> m[u] == FindRemote(remotes[..i], u).value
    {
      assert remotes[..i + 1][..i] == remotes[..i];
      m := m[remotes[i].uuid := remotes[i]];
      i := i + 1;
    }
    assert remotes[..i] == remotes;
  }

  /** `Object.fromEntries(localList.map(f => [f.uuid, f]))`: every key is `String(f.uuid)`. */
  method LocalsByUuid(locals: seq<LocalEntry>) returns (m: map<string, LocalEntry>)
    ensures forall u :: u in m <==> KnownLocally(locals, u)
  {
    m := map[];
    var i := 0;
    while i < |locals|
      invariant 0 <= i <= |locals|
      invariant forall u :: u in m <==> KnownLocally(locals[..i], u)
    {
      assert forall k :: 0 <= k < i ==> locals[..i + 1][k] == locals[..i][k];
      assert locals[..i + 1][i] == locals[i];
      m := m[ToStr(locals[i].uuid) := locals[i]];
      i := i + 1;
    }
    assert locals[..i] == locals;
  }

  /** A local entry is in the list of class `c` exactly when it is a local entry of that class. */
  lemma {:induction false} SelectMember(locals: seq<LocalEntry>, remotes: seq<RemoteEntry>, c: Class, e: LocalEntry)
    ensures e in Select(locals, remotes, c) <==> e in locals && Classify(e, remotes) == c
  {
    if locals != [] {
      var init := locals[..|locals| - 1];
      SelectMember(init, remotes, c, e);
      assert locals == init + [locals[|locals| - 1]];
    }
  }

  /** Every local entry lands in exactly one of `unchanged`, `modified` and `added`, as often as it
      occurs in the local list. */
  lemma {:induction false} Partition(locals: seq<LocalEntry>, remotes: seq<RemoteEntry>)
    ensures multiset(Select(locals, remotes, Unchanged)) + multiset(Select(locals, remotes, Modified))
      + multiset(Select(locals, remotes, Added)) == multiset(locals)
  {
    if locals != [] {
      var init := locals[..|locals| - 1];
      var last := locals[|locals| - 1];
      Partition(init, remotes);
      MultisetSnoc(locals);
      SelectLast(locals, remotes, Unchanged);
      SelectLast(locals, remotes, Modified);
      SelectLast(locals, remotes, Added);
      PartitionStep(multiset(Select(init, remotes, Unchanged)), multiset(Select(init, remotes, Modified)),
        multiset(Select(init, remotes, Added)), multiset(Select(locals, remotes, Unchanged)),
        multiset(Select(locals, remotes, Modified)), multiset(Select(locals, remotes, Added)),
        multiset(init), multiset(locals), last, Classify(last, remotes));
    }
  }

  lemma MultisetSnoc<T>(s: seq<T>)
    requires s != []
    ensures multiset(s) == multiset(s[..|s| - 1]) + multiset{s[|s| - 1]}
  {
    assert s == s[..|s| - 1] + [s[|s| - 1]];
  }

  /** One more element of class `c` keeps the three classes summing to the whole. */
  lemma PartitionStep<T>(u0: multiset<T>, m0: multiset<T>, a0: multiset<T>, u: multiset<T>, m: multiset<T>,
      a: multiset<T>, all0: multiset<T>, all: multiset<T>, x: T, c: Class)
    requires u0 + m0 + a0 == all0 && all == all0 + multiset{x}
    requires u == u0 + (if c == Unchanged then multiset{x} else multiset{})
    requires m == m0 + (if c == Modified then multiset{x} else multiset{})
    requires a == a0 + (if c == Added then multiset{x} else multiset{})
    ensures u + m + a == all
  {
  }

  lemma SelectLast(locals: seq<LocalEntry>, remotes: seq<RemoteEntry>, c: Class)
    requires locals != []
    ensures var last := locals[|locals| - 1];
      multiset(Select(locals, remotes, c)) == multiset(Select(locals[..|locals| - 1], remotes, c))
        + (if Classify(last, remotes) == c then multiset{last} else multiset{})
  {
  }

  /** An entry is added exactly when its uuid is unusable (not a string, empty or only whitespace)
      or no remote entry carries it; otherwise it is modified when its flag says so and unchanged
      when not. */
  lemma ClassifyExact(l: LocalEntry, remotes: seq<RemoteEntry>)
    ensures Classify(l, remotes) == Added <==>
      !UsableUuid(l.uuid) || forall i :: 0 <= i < |remotes| ==> remotes[i].uuid != l.uuid.s
    ensures Classify(l, remotes) == Modified <==> Classify(l, remotes) != Added && l.modified
  {
  }

  /** A rename is reported for a local entry exactly when its uuid is known remotely at another
      path; it carries the uuid, the remote path (of the last remote entry with that uuid) as the old
      path and the local path as the new one. Such an entry is modified or unchanged, never added. */
  lemma RenameOfExact(l: LocalEntry, remotes: seq<RemoteEntry>)
    ensures RenameOf(l, remotes).Some? <==>
      Classify(l, remotes) != Added && FindRemote(remotes, l.uuid.s).value.path != l.path
    ensures RenameOf(l, remotes).Some? ==>
      var x := RenameOf(l, remotes).value;
      && x.uuid == l.uuid.s && x.newPath == l.path && x.oldPath != x.newPath
      && RemoteEntry(x.oldPath, x.uuid) in remotes
  {
  }

  lemma {:induction false} RenamesMember(locals: seq<LocalEntry>, remotes: seq<RemoteEntry>, x: Rename)
    ensures x in Renames(locals, remotes) <==> exists l :: l in locals && RenameOf(l, remotes) == Some(x)
  {
    if locals != [] {
      var init := locals[..|locals| - 1];
      var last := locals[|locals| - 1];
      RenamesMember(init, remotes, x);
      assert locals == init + [last];
      if exists l :: l in locals && RenameOf(l, remotes) == Some(x) {
        var l :| l in locals && RenameOf(l, remotes) == Some(x);
        if l != last {
          assert l in init;
        }
      }
    }
  }

  /** A remote entry is deleted exactly when no local entry carries its uuid. */
  lemma {:induction false} DeletedMember(locals: seq<LocalEntry>, remotes: seq<RemoteEntry>, r: RemoteEntry)
    ensures r in Deleted(locals, remotes) <==> r in remotes && !KnownLocally(locals, r.uuid)
  {
    if remotes != [] {
      var init := remotes[..|remotes| - 1];
      DeletedMember(locals, init, r);
      assert remotes == init + [remotes[|remotes| - 1]];
    }
  }

  /** A remote entry whose uuid a local entry matched is never reported deleted. */
  lemma MatchedNotDeleted(locals: seq<LocalEntry>, remotes: seq<RemoteEntry>, i: nat, r: RemoteEntry)
    requires i < |locals| && Classify(locals[i], remotes) != Added
    requires r in remotes && r.uuid == locals[i].uuid.s
    ensures r !in Deleted(locals, remotes)
  {
    DeletedMember(locals, remotes, r);
    assert ToStr(locals[i].uuid) == r.uuid;
  }
}
