/**
 * The JSON documents the client reads with `json.load`, restricted to null,
 * booleans, integers, strings, lists and objects (floats, NaN and Infinity
 * have no case here), and the Python operations the client applies to
 * them: `d[key]`, `l[i]`, `x in d`, `has_key` and iteration. Each
 * operation raises what Python raises.
 */
module JsonValue {
  import opened Common

  datatype Json =
    | JNull
    | JBool(b: bool)
    | JInt(i: int)
    | JStr(s: string)
    | JArr(items: seq<Json>)
    | JObj(fields: map<string, Json>)

  /** `j[key]` with a string key. */
  function Get(j: Json, key: string): (r: Result<Json>)
    ensures r.Ok? <==> j.JObj? && key in j.fields
    ensures r.Ok? ==> r.value == j.fields[key]
    ensures r.Err? ==> r.error == (if j.JObj? then KeyError(key) else TypeError)
  {
    match j
    case JObj(fields) => if key in fields then Ok(fields[key]) else Err(KeyError(key))
    case _ => Err(TypeError)
  }

  /** Where `index` points among `n` elements: booleans are the integers
      0 and 1 in Python, and a negative index counts from the end. */
  function Position(n: nat, index: Json): (r: Result<nat>)
    ensures r.Ok? ==> r.value < n
    ensures index.JInt? && 0 <= index.i < n ==> r == Ok(index.i)
    ensures index.JInt? && index.i < 0 <= n + index.i ==> r == Ok(n + index.i)
    ensures index.JInt? && (index.i >= n || n + index.i < 0) ==> r == Err(IndexError)
    ensures index.JBool? ==> r == (if (if index.b then 1 else 0) < n then Ok(if index.b then 1 else 0) else Err(IndexError))
    ensures !index.JInt? && !index.JBool? ==> r == Err(TypeError)
  {
    match index
    case JInt(i) =>
      if 0 <= i < n then Ok(i)
      else if i < 0 <= n + i then Ok(n + i)
      else Err(IndexError)
    case JBool(b) =>
      var i := if b then 1 else 0;
      if i < n then Ok(i) else Err(IndexError)
    case _ => Err(TypeError)
  }

  /** The text Python 2 puts in the KeyError for a missing key that is not
      a string. */
  function KeyText(k: Json): string {
    match k
    case JNull => "None"
    case JBool(b) => if b then "True" else "False"
    case JInt(i) => if i < 0 then "-" + NatToString(-i) else NatToString(i)
    case _ => ""
  }

  /** `j[index]` for a JSON index: a list or a string is indexed by
      position (a string yields a one-character string), an object is
      looked up by key (lists and objects are unhashable keys, any other
      non-string key is missing), and nothing else can be subscripted. */
  function At(j: Json, index: Json): (r: Result<Json>)
    ensures j.JArr? ==> r == (match Position(|j.items|, index)
      case Ok(p) => Ok(j.items[p])
      case Err(e) => Err(e))
    ensures r.Ok? && j.JArr? ==> r.value in j.items
    ensures j.JArr? && index.JInt? && 0 <= index.i < |j.items| ==> r == Ok(j.items[index.i])
    ensures j.JStr? ==> (r.Ok? <==> Position(|j.s|, index).Ok?)
    ensures j.JStr? && r.Ok? ==> r.value == JStr([j.s[Position(|j.s|, index).value]])
    ensures j.JObj? && index.JStr? ==> r == Get(j, index.s)
    ensures j.JObj? && (index.JArr? || index.JObj?) ==> r == Err(TypeError)
    ensures j.JObj? && r.Ok? ==> index.JStr? && index.s in j.fields && r.value == j.fields[index.s]
    ensures j.JNull? || j.JBool? || j.JInt? ==> r == Err(TypeError)
  {
    match j
    case JArr(items) =>
      (match Position(|items|, index)
       case Ok(p) => Ok(items[p])
       case Err(e) => Err(e))
    case JStr(s) =>
      (match Position(|s|, index)
       case Ok(p) => Ok(JStr([s[p]]))
       case Err(e) => Err(e))
    case JObj(_) =>
      (match index
       case JStr(key) => Get(j, key)
       case JArr(_) => Err(TypeError)
       case JObj(_) => Err(TypeError)
       case _ => Err(KeyError(KeyText(index))))
    case _ => Err(TypeError)
  }

  /** `for x in j`: a list yields its elements, a string its characters and
      an empty object nothing; the keys of a non-empty object come in the
      order of Python 2's hash table, which this model does not fix. */
  function Items(j: Json): (r: Result<seq<Json>>)
    ensures r.Ok? <==> j.JArr? || j.JStr? || j == JObj(map[])
    ensures j.JArr? ==> r == Ok(j.items)
    ensures j.JStr? && r.Ok? ==> |r.value| == |j.s| && forall i :: 0 <= i < |j.s| ==> r.value[i] == JStr([j.s[i]])
    ensures j == JObj(map[]) ==> r == Ok([])
    ensures r.Err? ==> r.error == (if j.JObj? then DictOrder else TypeError)
  {
    match j
    case JArr(items) => Ok(items)
    case JStr(s) => Ok(seq(|s|, i requires 0 <= i < |s| => JStr([s[i]])))
    case JObj(fields) => if fields == map[] then Ok([]) else Err(DictOrder)
    case _ => Err(TypeError)
  }

  /** `key in j`: key membership for an object, element membership for a
      list, substring for a string; anything else is not iterable. */
  function HasMember(j: Json, key: string): (r: Result<bool>)
    ensures j.JObj? ==> r == Ok(key in j.fields)
    ensures j.JArr? ==> r == Ok(JStr(key) in j.items)
  {
    match j
    case JObj(fields) => Ok(key in fields)
    case JArr(items) => Ok(JStr(key) in items)
    case JStr(s) => Ok(Contains(s, key))
    case _ => Err(TypeError)
  }

  /** `d.has_key(k)` on a dict with string keys: strings are looked up,
      lists and objects are unhashable, every other value is simply absent. */
  function HasStringKey(keys: set<string>, k: Json): (r: Result<bool>)
    ensures r == Ok(true) <==> k.JStr? && k.s in keys
    ensures r.Err? <==> k.JArr? || k.JObj?
  {
    match k
    case JStr(s) => Ok(s in keys)
    case JArr(_) => Err(TypeError)
    case JObj(_) => Err(TypeError)
    case _ => Ok(false)
  }

  /** A value used where a text is needed (a URL handed to the transport,
      an operand of `".".join`). */
  function AsString(j: Json): (r: Result<string>)
    ensures r.Ok? <==> j.JStr?
    ensures r.Ok? ==> r.value == j.s
  {
    if j.JStr? then Ok(j.s) else Err(TypeError)
  }
}
