/** The index half of `update_last_modified`: the stored `path -> record` index is brought up to
    date with the freshly generated one, applying the added, modified, renamed and deleted files in
    that order. */
module IndexMerge {

  import opened Wrappers
  import opened LocalFlatten
  import opened RemoteRebuild
  import opened Reconcile
  import opened Records

  type Index = map<string, Record>

  function LocalPaths(es: seq<LocalEntry>): set<string> {
    set e | e in es :: e.path
  }

  function RemotePaths(es: seq<RemoteEntry>): set<string> {
    set e | e in es :: e.path
  }

  function OldPaths(rs: seq<Rename>): set<string> {
    set x | x in rs :: x.oldPath
  }

  function NewPaths(rs: seq<Rename>): set<string> {
    set x | x in rs :: x.newPath
  }

  /** Add: a path takes its new record when the generated index has one. */
  function AddAll(index: Index, toAdd: seq<LocalEntry>, newIndex: Index): Index {
    if toAdd == [] then index
    else
      var m := AddAll(index, toAdd[..|toAdd| - 1], newIndex);
      var p := toAdd[|toAdd| - 1].path;
      if p in newIndex then m[p := newIndex[p]] else m
  }

  /** Modify: a path takes its new record only when it already has one. */
  function ModifyAll(index: Index, toModify: seq<LocalEntry>, newIndex: Index): Index {
    if toModify == [] then index
    else
      var m := ModifyAll(index, toModify[..|toModify| - 1], newIndex);
      var p := toModify[|toModify| - 1].path;
      if p in newIndex && p in m then m[p := newIndex[p]] else m
  }

  /** Rename or move: when the new path has a new record and the old path a record, the new path
      takes its record and the old path is removed. */
  function RenameAll(index: Index, renames: seq<Rename>, newIndex: Index): Index {
    if renames == [] then index
    else
      var m := RenameAll(index, renames[..|renames| - 1], newIndex);
      var x := renames[|renames| - 1];
      if x.newPath in newIndex && x.oldPath in m then m[x.newPath := newIndex[x.newPath]] - {x.oldPath} else m
  }

  /** Delete: the path is removed. */
  function DeleteAll(index: Index, toDelete: seq<RemoteEntry>): Index {
    if toDelete == [] then index
    else DeleteAll(index, toDelete[..|toDelete| - 1]) - {toDelete[|toDelete| - 1].path}
  }

  /** The four steps in their fixed order. */
  function MergeIndex(index: Index, toAdd: seq<LocalEntry>, toModify: seq<LocalEntry>, renames: seq<Rename>,
                      toDelete: seq<RemoteEntry>, newIndex: Index): Index {
    DeleteAll(RenameAll(ModifyAll(AddAll(index, toAdd, newIndex), toModify, newIndex), renames, newIndex), toDelete)
  }

  /** The map part of update_last_modified. `stored` is the `last-modified` field read from the
      project document, `None` when the document or the field is missing. */
  method UpdateLastModified(toAdd: seq<LocalEntry>, toModifyContent: seq<LocalEntry>, toRenameOrMove: seq<Rename>,
                            toDelete: seq<RemoteEntry>, stored: Option<Index>, newLastModified: Index)
    returns (oldLastModified: Index)
    ensures oldLastModified == MergeIndex(if stored.Some? then stored.value else map[], toAdd, toModifyContent,
                                          toRenameOrMove, toDelete, newLastModified)
  {
    oldLastModified := if stored.Some? then stored.value else map[];
    ghost var start := oldLastModified;
    var i := 0;
    while i < |toAdd|
      invariant 0 <= i <= |toAdd|
      invariant oldLastModified == AddAll(start, toAdd[..i], newLastModified)
    {
      assert toAdd[..i + 1][..i] == toAdd[..i];
      var path := toAdd[i].path;
      if path in newLastModified {
        oldLastModified := oldLastModified[path := newLastModified[path]];
      }
      i := i + 1;
    }
    assert toAdd[..i] == toAdd;
    ghost var added := oldLastModified;
    i := 0;
    while i < |toModifyContent|
      invariant 0 <= i <= |toModifyContent|
      invariant oldLastModified == ModifyAll(added, toModifyContent[..i], newLastModified)
    {
      assert toModifyContent[..i + 1][..i] == toModifyContent[..i];
      var path := toModifyContent[i].path;
      if path in newLastModified && path in oldLastModified {
        oldLastModified := oldLastModified[path := newLastModified[path]];
      }
      i := i + 1;
    }
    assert toModifyContent[..i] == toModifyContent;
    ghost var modified := oldLastModified;
    i := 0;
    while i < |toRenameOrMove|
      invariant 0 <= i <= |toRenameOrMove|
      invariant oldLastModified == RenameAll(modified, toRenameOrMove[..i], newLastModified)
    {
      assert toRenameOrMove[..i + 1][..i] == toRenameOrMove[..i];
      var item := toRenameOrMove[i];
      if item.newPath in newLastModified && item.oldPath in oldLastModified {
        oldLastModified := oldLastModified[item.newPath := newLastModified[item.newPath]];
        oldLastModified := oldLastModified - {item.oldPath};
      }
      i := i + 1;
    }
    assert toRenameOrMove[..i] == toRenameOrMove;
    ghost var renamed := oldLastModified;
    i := 0;
    while i < |toDelete|
      invariant 0 <= i <= |toDelete|
      invariant oldLastModified == DeleteAll(renamed, toDelete[..i])
    {
      assert toDelete[..i + 1][..i] == toDelete[..i];
      oldLastModified := oldLastModified - {toDelete[i].path};
      i := i + 1;
    }
    assert toDelete[..i] == toDelete;
  }

  lemma LocalPathsSnoc(es: seq<LocalEntry>)
    requires es != []
    ensures LocalPaths(es) == LocalPaths(es[..|es| - 1]) + {es[|es| - 1].path}
  {
    assert es == es[..|es| - 1] + [es[|es| - 1]];
  }

  /** After the adds, a path has its new record when it was added and the generated index has
      one; every other path keeps what it had. */
  lemma {:induction false} AddAllExact(index: Index, toAdd: seq<LocalEntry>, newIndex: Index)
    ensures var r := AddAll(index, toAdd, newIndex);
      forall k :: && (k in r <==> k in index || (k in LocalPaths(toAdd) && k in newIndex))
                  && (k in LocalPaths(toAdd) && k in newIndex ==> r[k] == newIndex[k])
                  && (!(k in LocalPaths(toAdd) && k in newIndex) && k in index ==> r[k] == index[k])
  {
    if toAdd != [] {
      AddAllExact(index, toAdd[..|toAdd| - 1], newIndex);
      LocalPathsSnoc(toAdd);
    }
  }

  /** The modifies never add or remove a path; a modified path that had a record and has a new
      one takes the new one, and every other path keeps what it had. */
  lemma {:induction false} ModifyAllExact(index: Index, toModify: seq<LocalEntry>, newIndex: Index)
    ensures var r := ModifyAll(index, toModify, newIndex);
      forall k :: && (k in r <==> k in index)
                  && (k in LocalPaths(toModify) && k in newIndex && k in index ==> r[k] == newIndex[k])
                  && (!(k in LocalPaths(toModify) && k in newIndex) && k in index ==> r[k] == index[k])
  {
    if toModify != [] {
      ModifyAllExact(index, toModify[..|toModify| - 1], newIndex);
      LocalPathsSnoc(toModify);
    }
  }

  /** After the deletes, exactly the deleted paths are gone and every other path keeps its record. */
  lemma {:induction false} DeleteAllExact(index: Index, toDelete: seq<RemoteEntry>)
    ensures DeleteAll(index, toDelete) == index - RemotePaths(toDelete)
  {
    if toDelete != [] {
      var init := toDelete[..|toDelete| - 1];
      DeleteAllExact(index, init);
      assert toDelete == init + [toDelete[|toDelete| - 1]];
      assert RemotePaths(toDelete) == RemotePaths(init) + {toDelete[|toDelete| - 1].path};
    }
  }

  /** A rename touches only its two paths. */
  lemma {:induction false} RenameAllFrame(index: Index, renames: seq<Rename>, newIndex: Index, k: string)
    requires k !in OldPaths(renames) && k !in NewPaths(renames)
    ensures var r := RenameAll(index, renames, newIndex);
      (k in r <==> k in index) && (k in index ==> r[k] == index[k])
  {
    if renames != [] {
      var init := renames[..|renames| - 1];
      assert forall x :: x in init ==> x in renames;
      RenameAllFrame(index, init, newIndex, k);
    }
  }

  /** Every record left after the renames is the one the path had before or its new record. */
  lemma {:induction false} RenameAllSources(index: Index, renames: seq<Rename>, newIndex: Index, k: string)
    requires k in RenameAll(index, renames, newIndex)
    ensures var r := RenameAll(index, renames, newIndex);
      (k in index && r[k] == index[k]) || (k in newIndex && r[k] == newIndex[k])
  {
    if renames != [] {
      var init := renames[..|renames| - 1];
      var x := renames[|renames| - 1];
      if !(x.newPath in newIndex && x.oldPath in RenameAll(index, init, newIndex) && k == x.newPath) {
        RenameAllSources(index, init, newIndex, k);
      }
    }
  }

  /** A path that no rename moves away stays, and so does a new record it holds. */
  lemma {:induction false} RenameAllKeeps(index: Index, renames: seq<Rename>, newIndex: Index, k: string)
    requires k in index && k !in OldPaths(renames)
    ensures k in RenameAll(index, renames, newIndex)
    ensures k in newIndex && index[k] == newIndex[k] ==> RenameAll(index, renames, newIndex)[k] == newIndex[k]
  {
    if renames != [] {
      var init := renames[..|renames| - 1];
      assert forall x :: x in init ==> x in renames;
      RenameAllKeeps(index, init, newIndex, k);
    }
  }

  /** A rename whose old path had a record, that is the only rename moving that path away, and whose
      new path no rename moves away, leaves its new path with its new record. */
  lemma {:induction false} RenameAllWritesNew(index: Index, renames: seq<Rename>, newIndex: Index, x: Rename)
    requires x in renames && x.newPath in newIndex && x.oldPath in index
    requires forall y :: y in renames && y.oldPath == x.oldPath ==> y == x
    requires x.newPath !in OldPaths(renames)
    ensures x.newPath in RenameAll(index, renames, newIndex)
    ensures RenameAll(index, renames, newIndex)[x.newPath] == newIndex[x.newPath]
  {
    var init := renames[..|renames| - 1];
    var z := renames[|renames| - 1];
    assert renames == init + [z];
    assert forall y :: y in init ==> y in renames;
    if x in init {
      RenameAllWritesNew(index, init, newIndex, x);
    } else {
      assert x == z;
      RenameAllKeeps(index, init, newIndex, x.oldPath);
    }
  }

  /** A rename whose new path has a new record leaves its old path without a record, unless some
      rename writes that path. */
  lemma {:induction false} RenameAllRemovesOld(index: Index, renames: seq<Rename>, newIndex: Index, x: Rename)
    requires x in renames && x.newPath in newIndex && x.oldPath !in NewPaths(renames)
    ensures x.oldPath !in RenameAll(index, renames, newIndex)
  {
    var init := renames[..|renames| - 1];
    var z := renames[|renames| - 1];
    assert renames == init + [z];
    assert forall y :: y in init ==> y in renames;
    if x in init {
      RenameAllRemovesOld(index, init, newIndex, x);
    }
  }

  /** A path none of the four lists mentions keeps its record, or its absence. */
  lemma MergeFrame(index: Index, toAdd: seq<LocalEntry>, toModify: seq<LocalEntry>, renames: seq<Rename>,
                   toDelete: seq<RemoteEntry>, newIndex: Index, k: string)
    requires k !in LocalPaths(toAdd) && k !in LocalPaths(toModify)
    requires k !in OldPaths(renames) && k !in NewPaths(renames) && k !in RemotePaths(toDelete)
    ensures var r := MergeIndex(index, toAdd, toModify, renames, toDelete, newIndex);
      (k in r <==> k in index) && (k in index ==> r[k] == index[k])
  {
    var a := AddAll(index, toAdd, newIndex);
    var m := ModifyAll(a, toModify, newIndex);
    var n := RenameAll(m, renames, newIndex);
    AddAllExact(index, toAdd, newIndex);
    ModifyAllExact(a, toModify, newIndex);
    RenameAllFrame(m, renames, newIndex, k);
    DeleteAllExact(n, toDelete);
  }

  /** Every record of the merged index is the stored one for that path or the freshly generated
      one, and no deleted path is left. */
  lemma MergeSources(index: Index, toAdd: seq<LocalEntry>, toModify: seq<LocalEntry>, renames: seq<Rename>,
                     toDelete: seq<RemoteEntry>, newIndex: Index, k: string)
    ensures var r := MergeIndex(index, toAdd, toModify, renames, toDelete, newIndex);
      && (k in RemotePaths(toDelete) ==> k !in r)
      && (k in r ==> (k in index && r[k] == index[k]) || (k in newIndex && r[k] == newIndex[k]))
  {
    var a := AddAll(index, toAdd, newIndex);
    var m := ModifyAll(a, toModify, newIndex);
    var n := RenameAll(m, renames, newIndex);
    AddAllExact(index, toAdd, newIndex);
    ModifyAllExact(a, toModify, newIndex);
    DeleteAllExact(n, toDelete);
    if k in n {
      RenameAllSources(m, renames, newIndex, k);
    }
  }

  /** An added path, or a modified path that had a record, ends with its new record, unless it
      is deleted or moved away by a rename. */
  lemma MergeAddedOrModified(index: Index, toAdd: seq<LocalEntry>, toModify: seq<LocalEntry>, renames: seq<Rename>,
                             toDelete: seq<RemoteEntry>, newIndex: Index, k: string)
    requires k in newIndex
    requires k in LocalPaths(toAdd) || (k in LocalPaths(toModify) && k in index)
    requires k !in OldPaths(renames) && k !in RemotePaths(toDelete)
    ensures var r := MergeIndex(index, toAdd, toModify, renames, toDelete, newIndex);
      k in r && r[k] == newIndex[k]
  {
    var a := AddAll(index, toAdd, newIndex);
    var m := ModifyAll(a, toModify, newIndex);
    var n := RenameAll(m, renames, newIndex);
    AddAllExact(index, toAdd, newIndex);
    ModifyAllExact(a, toModify, newIndex);
    RenameAllKeeps(m, renames, newIndex, k);
    DeleteAllExact(n, toDelete);
  }

  /** A rename or move whose old path has a record (stored or just added), that is the only rename
      of that old path, and whose new path has a new record that no rename moves away and no delete
      removes, leaves the new path with its new record. */
  lemma MergeRenamedNew(index: Index, toAdd: seq<LocalEntry>, toModify: seq<LocalEntry>, renames: seq<Rename>,
                        toDelete: seq<RemoteEntry>, newIndex: Index, x: Rename)
    requires x in renames && x.newPath in newIndex
    requires x.oldPath in index || (x.oldPath in LocalPaths(toAdd) && x.oldPath in newIndex)
    requires forall y :: y in renames && y.oldPath == x.oldPath ==> y == x
    requires x.newPath !in OldPaths(renames) && x.newPath !in RemotePaths(toDelete)
    ensures var r := MergeIndex(index, toAdd, toModify, renames, toDelete, newIndex);
      x.newPath in r && r[x.newPath] == newIndex[x.newPath]
  {
    var a := AddAll(index, toAdd, newIndex);
    var m := ModifyAll(a, toModify, newIndex);
    var n := RenameAll(m, renames, newIndex);
    AddAllExact(index, toAdd, newIndex);
    ModifyAllExact(a, toModify, newIndex);
    RenameAllWritesNew(m, renames, newIndex, x);
    DeleteAllExact(n, toDelete);
  }

  /** A rename or move whose new path has a new record leaves the old path without a record,
      unless another rename writes it. */
  lemma MergeRenamedOld(index: Index, toAdd: seq<LocalEntry>, toModify: seq<LocalEntry>, renames: seq<Rename>,
                        toDelete: seq<RemoteEntry>, newIndex: Index, x: Rename)
    requires x in renames && x.newPath in newIndex && x.oldPath !in NewPaths(renames)
    ensures x.oldPath !in MergeIndex(index, toAdd, toModify, renames, toDelete, newIndex)
  {
    var a := AddAll(index, toAdd, newIndex);
    var m := ModifyAll(a, toModify, newIndex);
    var n := RenameAll(m, renames, newIndex);
    RenameAllRemovesOld(m, renames, newIndex, x);
    DeleteAllExact(n, toDelete);
  }
}
