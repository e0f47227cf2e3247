/** An insertion-ordered dictionary: what a JavaScript object or `Map` is when the code fills it with
    `o[k] = v` / `m.set(k, v)`. Writing an existing key keeps its first position and takes the new
    value; a new key goes last. */
module OrderedMap {

  import opened Wrappers

  datatype Dict<V> = Dict(order: seq<string>, entries: map<string, V>)

  /** The keys in `order` are distinct and are exactly the keys of `entries`. */
  predicate Valid<V>(d: Dict<V>) {
    && (forall i, j :: 0 <= i < j < |d.order| ==> d.order[i] != d.order[j])
    && (forall k :: k in d.entries ==> k in d.order)
    && (forall i :: 0 <= i < |d.order| ==> d.order[i] in d.entries)
  }

  function Empty<V>(): (d: Dict<V>)
    ensures Valid(d)
  {
    Dict([], map[])
  }

  /** `d[k] = v`. */
  function Put<V>(d: Dict<V>, k: string, v: V): (r: Dict<V>)
    ensures r.entries == d.entries[k := v]
  {
    Dict(if k in d.entries then d.order else d.order + [k], d.entries[k := v])
  }

  /** The writes `w` done one after the other. */
  function PutAll<V>(d: Dict<V>, w: seq<(string, V)>): Dict<V> {
    if w == [] then d else Put(PutAll(d, w[..|w| - 1]), w[|w| - 1].0, w[|w| - 1].1)
  }

  /** Writes keep the dictionary well formed. */
  lemma PutValid<V>(d: Dict<V>, k: string, v: V)
    requires Valid(d)
    ensures Valid(Put(d, k, v))
  {
  }

  lemma {:induction false} PutAllValid<V>(d: Dict<V>, w: seq<(string, V)>)
    requires Valid(d)
    ensures Valid(PutAll(d, w))
  {
    if w != [] {
      PutAllValid(d, w[..|w| - 1]);
      PutValid(PutAll(d, w[..|w| - 1]), w[|w| - 1].0, w[|w| - 1].1);
    }
  }

  /** `Object.entries(d)` / `Array.from(m)`: the pairs in key order. */
  function Entries<V>(d: Dict<V>): (s: seq<(string, V)>)
    requires Valid(d)
    ensures |s| == |d.order|
    ensures forall i :: 0 <= i < |s| ==> s[i] == (d.order[i], d.entries[d.order[i]])
  {
    seq(|d.order|, i requires 0 <= i < |d.order| => (d.order[i], d.entries[d.order[i]]))
  }

  /** `Array.from(m.values())`. */
  function Values<V>(d: Dict<V>): (s: seq<V>)
    requires Valid(d)
    ensures |s| == |d.order|
    ensures forall i :: 0 <= i < |s| ==> s[i] == d.entries[d.order[i]]
  {
    seq(|d.order|, i requires 0 <= i < |d.order| => d.entries[d.order[i]])
  }

  /** Insertion order: writing a new key puts its value after all the others; writing a key
      already there replaces its value where it stands and moves nothing. */
  lemma ValuesPut<V>(d: Dict<V>, k: string, v: V)
    requires Valid(d)
    ensures Valid(Put(d, k, v))
    ensures k !in d.entries ==> Values(Put(d, k, v)) == Values(d) + [v]
    ensures k in d.entries ==> |Values(Put(d, k, v))| == |Values(d)|
    ensures k in d.entries ==> forall i :: 0 <= i < |Values(d)| ==>
      Values(Put(d, k, v))[i] == if d.order[i] == k then v else Values(d)[i]
  {
    PutValid(d, k, v);
    if k !in d.entries {
      var s := Values(Put(d, k, v));
      assert |s| == |Values(d)| + 1;
      assert forall i :: 0 <= i < |Values(d)| ==> s[i] == Values(d)[i];
    }
  }

  /** `Object.assign(d, e)`. */
  function Assign<V>(d: Dict<V>, e: Dict<V>): Dict<V>
    requires Valid(e)
  {
    PutAll(d, Entries(e))
  }

  /** The value the last write to `k` in `w` stores, if any. */
  function LastWrite<V>(w: seq<(string, V)>, k: string): Option<V> {
    if w == [] then None
    else if w[|w| - 1].0 == k then Some(w[|w| - 1].1)
    else LastWrite(w[..|w| - 1], k)
  }

  /** After a series of writes, a key holds its last written value, and keys never written keep
      theirs. */
  lemma {:induction false} PutAllLookup<V>(d: Dict<V>, w: seq<(string, V)>, k: string)
    ensures LastWrite(w, k).Some? ==> k in PutAll(d, w).entries && PutAll(d, w).entries[k] == LastWrite(w, k).value
    ensures LastWrite(w, k).None? ==> (k in PutAll(d, w).entries <==> k in d.entries)
    ensures LastWrite(w, k).None? && k in d.entries ==> PutAll(d, w).entries[k] == d.entries[k]
  {
    if w != [] {
      PutAllLookup(d, w[..|w| - 1], k);
    }
  }

  /** A key is written by `w` exactly when some pair of `w` carries it. */
  lemma {:induction false} LastWriteSome<V>(w: seq<(string, V)>, k: string)
    ensures LastWrite(w, k).Some? <==> exists i :: 0 <= i < |w| && w[i].0 == k
    ensures LastWrite(w, k).Some? ==> exists i :: 0 <= i < |w| && w[i] == (k, LastWrite(w, k).value)
  {
    if w != [] {
      var w' := w[..|w| - 1];
      LastWriteSome(w', k);
      if w[|w| - 1].0 != k {
        if exists i :: 0 <= i < |w| && w[i].0 == k {
          var i :| 0 <= i < |w| && w[i].0 == k;
          assert w'[i] == w[i];
        }
        if LastWrite(w', k).Some? {
          var i :| 0 <= i < |w'| && w'[i] == (k, LastWrite(w', k).value);
          assert w[i] == w'[i];
        }
      }
    }
  }

  /** One more write at the end. */
  lemma PutAllSnoc<V>(d: Dict<V>, w: seq<(string, V)>, k: string, v: V)
    ensures PutAll(d, w + [(k, v)]) == Put(PutAll(d, w), k, v)
  {
    assert (w + [(k, v)])[..|w|] == w;
  }

  lemma PutPut<V>(d: Dict<V>, k: string, v1: V, v2: V)
    ensures Put(Put(d, k, v1), k, v2) == Put(d, k, v2)
  {
  }

  lemma PutCommute<V>(x: Dict<V>, k: string, v: V, b: string, bv: V)
    requires k in x.entries && b != k
    ensures Put(Put(x, b, bv), k, v) == Put(Put(x, k, v), b, bv)
  {
    assert x.entries[b := bv][k := v] == x.entries[k := v][b := bv];
  }

  lemma {:induction false} PutAllKeepsKey<V>(d: Dict<V>, w: seq<(string, V)>, k: string)
    requires k in d.entries
    ensures k in PutAll(d, w).entries
  {
    if w != [] {
      PutAllKeepsKey(d, w[..|w| - 1], k);
    }
  }

  /** Overwriting a key that is already present commutes with writes to other keys. */
  lemma {:induction false} OverwriteCommutes<V>(d: Dict<V>, b: seq<(string, V)>, k: string, v: V)
    requires k in d.entries
    requires forall i :: 0 <= i < |b| ==> b[i].0 != k
    ensures Put(PutAll(d, b), k, v) == PutAll(Put(d, k, v), b)
  {
    if b != [] {
      var b' := b[..|b| - 1];
      var last := b[|b| - 1];
      OverwriteCommutes(d, b', k, v);
      PutAllKeepsKey(d, b', k);
      PutCommute(PutAll(d, b'), k, v, last.0, last.1);
    }
  }

  lemma {:induction false} PutAllAppend<V>(d: Dict<V>, a: seq<(string, V)>, b: seq<(string, V)>)
    ensures PutAll(d, a + b) == PutAll(PutAll(d, a), b)
    decreases |b|
  {
    if b == [] {
      assert a + b == a;
    } else {
      assert (a + b)[..|a + b| - 1] == a + b[..|b| - 1];
      PutAllAppend(d, a, b[..|b| - 1]);
    }
  }

  lemma EntriesPutNew<V>(e: Dict<V>, k: string, v: V)
    requires Valid(e) && k !in e.entries
    ensures Entries(Put(e, k, v)) == Entries(e) + [(k, v)]
  {
  }

  lemma EntriesPutOld<V>(e: Dict<V>, k: string, v: V, j: nat)
    requires Valid(e) && j < |e.order| && e.order[j] == k
    ensures Entries(Put(e, k, v)) == Entries(e)[..j] + [(k, v)] + Entries(e)[j + 1..]
  {
  }

  /** Replacing one write by a later write to the same key, when no later write touches that key. */
  lemma ReplaceWrite<V>(d: Dict<V>, a: seq<(string, V)>, y: (string, V), x: (string, V), b: seq<(string, V)>)
    requires y.0 == x.0
    requires forall i :: 0 <= i < |b| ==> b[i].0 != x.0
    ensures PutAll(d, a + [x] + b) == Put(PutAll(d, a + [y] + b), x.0, x.1)
  {
    var dA := PutAll(d, a);
    PutAllAppend(d, a + [x], b);
    PutAllAppend(d, a, [x]);
    PutAllAppend(d, a + [y], b);
    PutAllAppend(d, a, [y]);
    assert PutAll(dA, [x]) == Put(dA, x.0, x.1);
    assert PutAll(dA, [y]) == Put(dA, y.0, y.1);
    OverwriteCommutes(Put(dA, y.0, y.1), b, x.0, x.1);
    PutPut(dA, x.0, y.1, x.1);
  }

  lemma AssignPutNew<V>(d: Dict<V>, e: Dict<V>, k: string, v: V)
    requires Valid(e) && k !in e.entries
    ensures Assign(d, Put(e, k, v)) == Put(Assign(d, e), k, v)
  {
    EntriesPutNew(e, k, v);
    PutAllAppend(d, Entries(e), [(k, v)]);
    assert PutAll(Assign(d, e), [(k, v)]) == Put(Assign(d, e), k, v);
  }

  lemma SplitAt<T>(s: seq<T>, j: nat)
    requires j < |s|
    ensures s == s[..j] + [s[j]] + s[j + 1..]
  {
  }

  /** No pair after position `j` of the entries carries the key at `j`. */
  lemma LaterKeysDiffer<V>(e: Dict<V>, j: nat, b: seq<(string, V)>)
    requires Valid(e) && j < |e.order| && b == Entries(e)[j + 1..]
    ensures forall i :: 0 <= i < |b| ==> b[i].0 != e.order[j]
  {
    forall i | 0 <= i < |b| ensures b[i].0 != e.order[j] {
      assert b[i] == Entries(e)[j + 1 + i];
    }
  }

  lemma AssignPutOld<V>(d: Dict<V>, e: Dict<V>, k: string, v: V, j: nat)
    requires Valid(e) && j < |e.order| && e.order[j] == k
    ensures Assign(d, Put(e, k, v)) == Put(Assign(d, e), k, v)
  {
    var s := Entries(e);
    SplitAt(s, j);
    EntriesPutOld(e, k, v, j);
    LaterKeysDiffer(e, j, s[j + 1..]);
    ReplaceWrite(d, s[..j], s[j], (k, v), s[j + 1..]);
  }

  /** Assign of a dictionary grown by one write is the assign followed by that write. */
  lemma AssignPut<V>(d: Dict<V>, e: Dict<V>, k: string, v: V)
    requires Valid(e)
    ensures Assign(d, Put(e, k, v)) == Put(Assign(d, e), k, v)
  {
    if k !in e.entries {
      AssignPutNew(d, e, k, v);
    } else {
      var j :| 0 <= j < |e.order| && e.order[j] == k;
      AssignPutOld(d, e, k, v, j);
    }
  }

  /** Object.assign of a freshly built object writes the same pairs as building in place. */
  lemma {:induction false} AssignFresh<V>(d: Dict<V>, w: seq<(string, V)>)
    ensures Valid(PutAll(Empty(), w))
    ensures Assign(d, PutAll(Empty(), w)) == PutAll(d, w)
  {
    if w == [] {
      assert Entries(Empty<V>()) == [];
    } else {
      var w' := w[..|w| - 1];
      var x := w[|w| - 1];
      AssignFresh(d, w');
      PutValid(PutAll(Empty(), w'), x.0, x.1);
      AssignPut(d, PutAll(Empty(), w'), x.0, x.1);
    }
  }
}
