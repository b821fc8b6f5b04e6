/** JSON values as `JSON.parse` returns them, and the serialiser pair the
    cursor codecs use (`JSON.stringify` then UTF-8 encoding; UTF-8 decoding
    then `JSON.parse`), kept abstract: a codec is any pair of functions whose
    parse side inverts the stringify side. */
module Json {
  import opened Wrappers
  import Base64Url

  /** Numbers are integers here: cursors only carry ids, tokens and counters. */
  datatype Value =
    | Null
    | Bool(b: bool)
    | Num(n: int)
    | Str(s: string)
    | Arr(elems: seq<Value>)
    | Obj(fields: seq<(string, Value)>)

  /** Property read `obj[key]` on a parsed object: `JSON.parse` keeps the last
      of several members with the same key. */
  function Get(fields: seq<(string, Value)>, key: string): (r: Option<Value>)
    ensures r.Some? ==> exists i :: 0 <= i < |fields| && fields[i] == (key, r.value)
    ensures r.None? ==> forall i :: 0 <= i < |fields| ==> fields[i].0 != key
    decreases |fields|
  {
    if fields == [] then None
    else if fields[|fields| - 1].0 == key then Some(fields[|fields| - 1].1)
    else Get(fields[..|fields| - 1], key)
  }

  /** The member read is the last one with that key. */
  lemma {:induction false} GetLast(fields: seq<(string, Value)>, k: nat, key: string)
    requires k < |fields| && fields[k].0 == key
    requires forall j :: k < j < |fields| ==> fields[j].0 != key
    ensures Get(fields, key) == Some(fields[k].1)
    decreases |fields|
  {
    if k < |fields| - 1 {
      GetLast(fields[..|fields| - 1], k, key);
    }
  }

  /** JavaScript truthiness of a parsed value; objects and arrays are truthy. */
  predicate Truthy(v: Value) {
    match v
    case Null => false
    case Bool(b) => b
    case Num(n) => n != 0
    case Str(s) => s != ""
    case _ => true
  }

  datatype Codec = Codec(
    stringify: Value -> seq<Base64Url.byte>,
    parse: seq<Base64Url.byte> -> Option<Value>)

  /** The largest integer a JavaScript Number holds exactly (2^53 - 1). */
  const MaxSafe: int := 0x1F_FFFF_FFFF_FFFF

  /** An object whose members all have different keys. */
  predicate DistinctKeys(fields: seq<(string, Value)>) {
    forall i, j :: 0 <= i < j < |fields| ==> fields[i].0 != fields[j].0
  }

  /** A value that `JSON.stringify` then `JSON.parse` reproduce: every number
      is a safe integer and no object repeats a key. */
  predicate Plain(v: Value)
    decreases v
  {
    match v
    case Num(n) => -MaxSafe <= n <= MaxSafe
    case Arr(elems) => forall i :: 0 <= i < |elems| ==> Plain(elems[i])
    case Obj(fields) => DistinctKeys(fields) && forall i :: 0 <= i < |fields| ==> Plain(fields[i].1)
    case _ => true
  }

  /** What the cursor round trip needs of `JSON.stringify` / `JSON.parse`:
      every plain value serialises to a non-empty text that parses back to
      it. */
  ghost predicate Faithful(c: Codec) {
    forall v :: Plain(v) ==> |c.stringify(v)| > 0 && c.parse(c.stringify(v)) == Some(v)
  }
}
