/** JSON-like values as the project trees, the remote snapshot and the queue documents hold them,
    together with the handful of JavaScript coercions the engine relies on (truthiness, `String(x)`,
    `a || b`, `trim() === ""`). */
module Json {

  import opened Wrappers

  /** A JSON value. An object keeps its keys in enumeration order. */
  datatype Value =
    | Null
    | Bool(b: bool)
    | Num(n: int)
    | Str(s: string)
    | Obj(fields: seq<Field>)

  datatype Field = Field(key: string, val: Value)

  /** `!!v` in JavaScript. */
  predicate Truthy(v: Value) {
    match v
    case Null => false
    case Bool(b) => b
    case Num(n) => n != 0
    case Str(s) => s != ""
    case Obj(_) => true
  }

  /** A property read `o.k` that may give `undefined` (`None`). */
  predicate TruthyOpt(v: Option<Value>) {
    v.Some? && Truthy(v.value)
  }

  /** `a || dflt` where `a` may be `undefined`. */
  function Or(a: Option<Value>, dflt: Value): (r: Value)
    ensures TruthyOpt(a) ==> r == a.value
    ensures !TruthyOpt(a) ==> r == dflt
  {
    if TruthyOpt(a) then a.value else dflt
  }

  /** The keys a `for...in` loop visits; a primitive has none that matter here. */
  function FieldsOf(v: Value): seq<Field> {
    if v.Obj? then v.fields else []
  }

  /** `k in o` for an object `o`. */
  predicate Has(v: Value, k: string) {
    v.Obj? && Lookup(v.fields, k).Some?
  }

  /** `o[k]` for an object `o`; `None` is `undefined`. */
  function Get(v: Value, k: string): Option<Value> {
    if v.Obj? then Lookup(v.fields, k) else None
  }

  /** The value of the first field with key `k`. */
  function Lookup(fields: seq<Field>, k: string): Option<Value> {
    if fields == [] then None
    else if fields[0].key == k then Some(fields[0].val)
    else Lookup(fields[1..], k)
  }

  /** A key is found exactly when a field carries it, and what is found is that field's value. */
  lemma {:induction false} LookupExact(fields: seq<Field>, k: string)
    ensures Lookup(fields, k).Some? <==> exists i :: 0 <= i < |fields| && fields[i].key == k
    ensures Lookup(fields, k).Some? ==> exists i :: 0 <= i < |fields| && fields[i] == Field(k, Lookup(fields, k).value)
  {
    if fields != [] && fields[0].key != k {
      LookupExact(fields[1..], k);
      if exists i :: 0 <= i < |fields| && fields[i].key == k {
        var i :| 0 <= i < |fields| && fields[i].key == k;
        assert fields[1..][i - 1] == fields[i];
      }
      if Lookup(fields, k).Some? {
        var i :| 0 <= i < |fields[1..]| && fields[1..][i] == Field(k, Lookup(fields, k).value);
        assert fields[i + 1] == fields[1..][i];
      }
    }
  }

  /** Assignment `o[k] = v` on an object literal being built (`{...o, k: v}`): an existing key keeps
      its position and takes the new value; a new key goes last. */
  function SetField(fields: seq<Field>, k: string, v: Value): seq<Field> {
    if fields == [] then [Field(k, v)]
    else if fields[0].key == k then [Field(k, v)] + fields[1..]
    else [fields[0]] + SetField(fields[1..], k, v)
  }

  /** After the assignment the key holds the new value. */
  lemma {:induction false} SetFieldLookup(fields: seq<Field>, k: string, v: Value)
    ensures Lookup(SetField(fields, k, v), k) == Some(v)
  {
    if fields != [] && fields[0].key != k {
      SetFieldLookup(fields[1..], k, v);
    }
  }

  /** The assignment leaves every other key's value as it was. */
  lemma {:induction false} SetFieldOther(fields: seq<Field>, k: string, v: Value, j: string)
    requires j != k
    ensures Lookup(SetField(fields, k, v), j) == Lookup(fields, j)
  {
    if fields != [] && fields[0].key != k {
      SetFieldOther(fields[1..], k, v, j);
    }
  }

  /** Decimal digits of a natural number, as `String(n)` writes them. */
  function NatToString(n: nat): (s: string)
    ensures |s| >= 1
    decreases n
  {
    var d := "0123456789"[n % 10];
    if n < 10 then [d] else NatToString(n / 10) + [d]
  }

  /** `String(v)`, the coercion used when a value becomes an object key or is concatenated. */
  function ToStr(v: Value): string {
    match v
    case Null => "null"
    case Bool(b) => if b then "true" else "false"
    case Num(n) => if n < 0 then "-" + NatToString(-n) else NatToString(n)
    case Str(s) => s
    case Obj(_) => "[object Object]"
  }

  /** The keys and values `for (k in v)` visits with `v[k]`: an object's own fields; a string's
      character positions `"0"`, `"1"`, ... each holding that one-character string; nothing for
      any other value. */
  function Keyed(v: Value): (r: Value)
    ensures r.Obj?
    ensures v.Obj? ==> r == v
    ensures v.Str? ==> |r.fields| == |v.s|
    ensures !v.Obj? && !v.Str? ==> r.fields == []
  {
    match v
    case Obj(_) => v
    case Str(s) => Obj(CharFields(s, |s|))
    case _ => Obj([])
  }

  /** The first `n` character positions of `s` as fields. */
  function CharFields(s: string, n: nat): (fs: seq<Field>)
    requires n <= |s|
    ensures |fs| == n
  {
    if n == 0 then [] else CharFields(s, n - 1) + [Field(NatToString(n - 1), Str([s[n - 1]]))]
  }

  /** `for...in` over the string `"ab"` visits `"0"` holding `"a"`, then `"1"` holding `"b"`. */
  lemma KeyedString()
    ensures Keyed(Str("ab")) == Obj([Field("0", Str("a")), Field("1", Str("b"))])
  {
    assert NatToString(0) == "0" && NatToString(1) == "1";
    assert CharFields("ab", 1) == [Field("0", Str("a"))];
  }

  /** The characters `String.prototype.trim` removes. */
  predicate IsJsWhitespace(c: char) {
    c == '\t' || c == '\n' || c == '\U{000B}' || c == '\U{000C}' || c == '\r' || c == ' '
    || c == '\U{00A0}' || c == '\U{1680}' || ('\U{2000}' <= c <= '\U{200A}')
    || c == '\U{2028}' || c == '\U{2029}' || c == '\U{202F}' || c == '\U{205F}'
    || c == '\U{3000}' || c == '\U{FEFF}'
  }

  /** `s.trim() === ""`. */
  predicate Blank(s: string) {
    forall i :: 0 <= i < |s| ==> IsJsWhitespace(s[i])
  }
}
