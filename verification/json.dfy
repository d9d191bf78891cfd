/**
 * The dictionary values the source passes around: the JSON configuration,
 * the YAML rule documents and the scanner's class records.
 */
module Json {

  datatype Value =
    | Null
    | Bool(b: bool)
    | Int(i: int)
    | Str(s: string)
    | List(items: seq<Value>)
    | Dict(entries: map<string, Value>)

  /** `d.get(k, default)`. */
  function DictGet(d: map<string, Value>, k: string, default: Value): Value {
    if k in d then d[k] else default
  }

  /** Python truthiness of a value. */
  predicate Truthy(v: Value) {
    match v
    case Null => false
    case Bool(b) => b
    case Int(i) => i != 0
    case Str(s) => s != ""
    case List(xs) => xs != []
    case Dict(m) => m != map[]
  }

  /** The string under `k`, or `default` when it is missing or not a string. */
  function StrOr(d: map<string, Value>, k: string, default: string): (r: string)
    ensures ReadsStr(d, k, default, r)
  {
    match DictGet(d, k, Null)
    case Str(s) => s
    case _ => default
  }

  /** The boolean under `k`, or `default` when it is missing or not a boolean. */
  function BoolOr(d: map<string, Value>, k: string, default: bool): (r: bool)
    ensures ReadsBool(d, k, default, r)
  {
    match DictGet(d, k, Null)
    case Bool(b) => b
    case _ => default
  }

  /** `got` is what `d.get(k, default)` gives for a string field: the stored string, or `default` for a missing key. */
  predicate ReadsStr(d: map<string, Value>, k: string, default: string, got: string) {
    (k in d && d[k].Str? ==> got == d[k].s) && (k !in d ==> got == default)
  }

  /** The same for a boolean field. */
  predicate ReadsBool(d: map<string, Value>, k: string, default: bool, got: bool) {
    (k in d && d[k].Bool? ==> got == d[k].b) && (k !in d ==> got == default)
  }

  /** The same for a list of strings, missing meaning empty: one string per stored item. */
  predicate ReadsStrings(d: map<string, Value>, k: string, got: seq<string>) {
    && (k in d && d[k].List? ==>
          |got| == |d[k].items| && forall i :: 0 <= i < |got| && d[k].items[i].Str? ==> got[i] == d[k].items[i].s)
    && (k !in d ==> got == [])
  }

  /** The items of a list value; any other value reads as the empty list. */
  function Items(v: Value): seq<Value> {
    if v.List? then v.items else []
  }

  /** The entries of a dict value; any other value reads as the empty dict. */
  function Entries(v: Value): map<string, Value> {
    if v.Dict? then v.entries else map[]
  }

  /** The strings of a list value; an item that is not a string reads as "". */
  function Strings(v: Value): (r: seq<string>)
    ensures |r| == |Items(v)|
    ensures forall i :: 0 <= i < |r| && Items(v)[i].Str? ==> r[i] == Items(v)[i].s
  {
    seq(|Items(v)|, i requires 0 <= i < |Items(v)| => if Items(v)[i].Str? then Items(v)[i].s else "")
  }

  function StrList(xs: seq<string>): (v: Value)
    ensures v.List? && |v.items| == |xs|
  {
    List(seq(|xs|, i requires 0 <= i < |xs| => Str(xs[i])))
  }

  lemma StringsOfStrList(xs: seq<string>)
    ensures Strings(StrList(xs)) == xs
  {
  }
}
