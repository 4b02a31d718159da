/**
 * Decoded JSON values as the services see them after `json.loads`, with
 * Python's truthiness, `dict.get` and `str()`. The decoder itself is an
 * oracle. Objects keep their members in order, as Python dictionaries do.
 */
module JsonValues {
  import opened Wrappers
  import opened Text
  import Records

  /** A number carries the text Python's `str()` gives for it (`3`, `0.5`). */
  datatype Json =
    | JNull
    | JBool(b: bool)
    | JNum(repr: string)
    | JStr(s: string)
    | JArr(items: seq<Json>)
    | JObj(fields: seq<(string, Json)>)

  /** `json.loads`: `None` stands for the `JSONDecodeError` it raises. */
  type Parser = string -> Option<Json>

  /** Python truthiness of a decoded value. */
  predicate Truthy(j: Json)
  {
    match j
    case JNull => false
    case JBool(b) => b
    case JNum(r) => !Records.ZeroRepr(r)
    case JStr(s) => s != ""
    case JArr(items) => items != []
    case JObj(fields) => fields != []
  }

  /** An integer as the decoder or `enumerate` produces it. */
  function Int(i: int): (j: Json)
    ensures j.JNum?
  {
    JNum(IntToString(i))
  }

  /** `key in d` for a decoded object. */
  predicate HasKey(fields: seq<(string, Json)>, key: string)
  {
    exists i :: 0 <= i < |fields| && fields[i].0 == key
  }

  /** `d[key]` for a decoded object; `None` is the `KeyError`. */
  function Lookup(fields: seq<(string, Json)>, key: string): (r: Option<Json>)
    ensures r.Some? <==> HasKey(fields, key)
    ensures r.Some? ==> (key, r.value) in fields
  {
    if fields == [] then None
    else if fields[0].0 == key then Some(fields[0].1)
    else
      var r := Lookup(fields[1..], key);
      assert HasKey(fields, key) ==> HasKey(fields[1..], key) by {
        if HasKey(fields, key) {
          var i :| 0 <= i < |fields| && fields[i].0 == key;
          assert fields[1..][i - 1] == fields[i];
        }
      }
      assert HasKey(fields[1..], key) ==> HasKey(fields, key) by {
        if HasKey(fields[1..], key) {
          var i :| 0 <= i < |fields[1..]| && fields[1..][i].0 == key;
          assert fields[i + 1] == fields[1..][i];
        }
      }
      r
  }

  /** `d.get(key, default)` for a decoded object; `d.get(key)` is `FieldOr(d, key, JNull)`. */
  function FieldOr(fields: seq<(string, Json)>, key: string, default: Json): (j: Json)
    ensures HasKey(fields, key) ==> Some(j) == Lookup(fields, key)
    ensures !HasKey(fields, key) ==> j == default
  {
    match Lookup(fields, key)
    case Some(v) => v
    case None => default
  }
  /**
   * `str(value)`. Scalars and top-level strings are rendered exactly; inside
   * a list or object a string is shown between single quotes, without the
   * escaping Python's `repr` applies to quotes and control characters.
   */
  function Show(j: Json): string
  {
    match j
    case JStr(s) => s
    case _ => Repr(j)
  }

  function Repr(j: Json): string
    decreases j, 1
  {
    match j
    case JNull => "None"
    case JBool(b) => if b then "True" else "False"
    case JNum(r) => r
    case JStr(s) => "'" + s + "'"
    case JArr(items) => "[" + ReprItems(j, 0) + "]"
    case JObj(fields) => "{" + ReprFields(j, 0) + "}"
  }

  /** The items of a list from index `k`, separated by `, `. */
  function ReprItems(list: Json, k: nat): string
    requires list.JArr?
    decreases list, 0, |list.items| - k
  {
    if k >= |list.items| then ""
    else
      assert list.items[k] in list.items;
      var item := Repr(list.items[k]);
      if k + 1 == |list.items| then item else item + ", " + ReprItems(list, k + 1)
  }

  /** The members of an object from index `k`, as `'key': value` separated by `, `. */
  function ReprFields(obj: Json, k: nat): string
    requires obj.JObj?
    decreases obj, 0, |obj.fields| - k
  {
    if k >= |obj.fields| then ""
    else
      assert obj.fields[k] in obj.fields;
      var item := "'" + obj.fields[k].0 + "': " + Repr(obj.fields[k].1);
      if k + 1 == |obj.fields| then item else item + ", " + ReprFields(obj, k + 1)
  }
}
