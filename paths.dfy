/** Slash-separated paths: how the traversals build them from keys and how
    `getMetaFromMetadataPath` and `findUuidForPath` take them apart again. */
module Paths {

  /** `base ? `${base}/${key}` : key`: the empty base adds no separator. */
  function JoinPath(base: string, key: string): (p: string)
    ensures base == "" ==> p == key
    ensures base != "" ==> p == base + "/" + key
  {
    if base == "" then key else base + "/" + key
  }

  /** `parts.join("/")`. */
  function Join(parts: seq<string>): string
    requires |parts| >= 1
  {
    if |parts| == 1 then parts[0] else parts[0] + "/" + Join(parts[1..])
  }

  /** `s.split("/")`: the pieces between separators, so the empty string gives `[""]`. */
  function Split(s: string): (parts: seq<string>)
    ensures |parts| >= 1
  {
    if s == [] then [""]
    else if s[0] == '/' then [""] + Split(s[1..])
    else
      var rest := Split(s[1..]);
      [[s[0]] + rest[0]] + rest[1..]
  }

  predicate NoSeparator(s: string) {
    '/' !in s
  }

  /** Splitting a segment that holds no separator, followed by a separator, peels that segment off. */
  lemma {:induction false} SplitPrefix(p: string, rest: string)
    requires NoSeparator(p)
    ensures Split(p + "/" + rest) == [p] + Split(rest)
  {
    if p == [] {
      assert p + "/" + rest == "/" + rest;
    } else {
      assert (p + "/" + rest)[1..] == p[1..] + "/" + rest;
      SplitPrefix(p[1..], rest);
      assert [p[0]] + p[1..] == p;
    }
  }

  /** A segment without separators splits to itself. */
  lemma {:induction false} SplitSegment(p: string)
    requires NoSeparator(p)
    ensures Split(p) == [p]
  {
    if p != [] {
      SplitSegment(p[1..]);
      assert [p[0]] + p[1..] == p;
    }
  }

  /** Splitting undoes joining when no segment holds a separator. */
  lemma {:induction false} SplitJoin(parts: seq<string>)
    requires |parts| >= 1
    requires forall i :: 0 <= i < |parts| ==> NoSeparator(parts[i])
    ensures Split(Join(parts)) == parts
  {
    if |parts| == 1 {
      SplitSegment(parts[0]);
    } else {
      SplitPrefix(parts[0], Join(parts[1..]));
      SplitJoin(parts[1..]);
    }
  }

  /** Joining undoes splitting, for every string. */
  lemma {:induction false} JoinSplit(s: string)
    ensures Join(Split(s)) == s
  {
    if s != [] {
      JoinSplit(s[1..]);
      var rest := Split(s[1..]);
      if s[0] != '/' {
        var parts := [[s[0]] + rest[0]] + rest[1..];
        if |rest| > 1 {
          assert parts[1..] == rest[1..];
          assert Join(rest) == rest[0] + "/" + Join(rest[1..]);
        }
        assert s == [s[0]] + s[1..];
      } else {
        assert s == "/" + s[1..];
      }
    }
  }

  /** Splitting at a separator splits each side on its own. */
  lemma {:induction false} SplitConcat(a: string, b: string)
    ensures Split(a + "/" + b) == Split(a) + Split(b)
  {
    if a == [] {
      assert a + "/" + b == "/" + b;
    } else {
      assert (a + "/" + b)[1..] == a[1..] + "/" + b;
      SplitConcat(a[1..], b);
    }
  }

  /** The segments of `base/key` are those of `base` followed by `key`. */
  lemma SplitJoinPath(base: string, key: string)
    requires key != "" && NoSeparator(key)
    ensures JoinPath(base, key) != ""
    ensures Split(JoinPath(base, key)) == (if base == "" then [] else Split(base)) + [key]
  {
    SplitSegment(key);
    if base != "" {
      SplitConcat(base, key);
    }
  }

  /** The last segment of `base/key` is `key` when `key` holds no separator. */
  lemma LastSegment(base: string, key: string)
    requires NoSeparator(key)
    ensures var parts := Split(JoinPath(base, key)); parts[|parts| - 1] == key
  {
    SplitSegment(key);
    if base != "" {
      SplitConcat(base, key);
    }
  }
}
