/**
 * The loosely typed values the agent backend hands back: Python `None`,
 * booleans, integers, strings, lists, dictionaries (in insertion order) and
 * opaque objects exposing instance attributes and, optionally, Pydantic's
 * `model_dump()` (v2) and `dict()` (v1) methods.
 */
module Values {
  import opened Common
  import opened PyText

  /** A zero-argument method of an object: absent, raising, or returning a value. */
  datatype Hook = Missing | Raises | Returns(result: Value)

  datatype Value =
    | VNone
    | VBool(b: bool)
    | VInt(i: int)
    | VStr(s: string)
    | VList(items: seq<Value>)
    | VDict(entries: seq<(string, Value)>)
    | VObj(attrs: seq<(string, Value)>, modelDump: Hook, dictMethod: Hook)

  /** The index of the first entry with key `k`, or -1 when there is none. */
  function KeyIndex(es: seq<(string, Value)>, k: string): (i: int)
    ensures -1 <= i < |es|
    ensures i >= 0 ==> es[i].0 == k && forall j :: 0 <= j < i ==> es[j].0 != k
    ensures i == -1 ==> forall j :: 0 <= j < |es| ==> es[j].0 != k
  {
    if es == [] then -1
    else if es[0].0 == k then 0
    else
      var i := KeyIndex(es[1..], k);
      if i == -1 then -1 else i + 1
  }

  /** The value stored under key `k`, or `VNone` when there is none (`d.get(k)`). */
  function Lookup(es: seq<(string, Value)>, k: string): Value
  {
    var i := KeyIndex(es, k);
    if i == -1 then VNone else es[i].1
  }

  /** The attributes an object exposes to `getattr`; other values expose none here. */
  function AttrEntries(v: Value): seq<(string, Value)>
  {
    if v.VObj? then v.attrs else []
  }

  /** The entries of a dictionary; other values have none. */
  function DictEntries(v: Value): seq<(string, Value)>
  {
    if v.VDict? then v.entries else []
  }

  /** `getattr(v, k, None)`. */
  function Attr(v: Value, k: string): Value
  {
    Lookup(AttrEntries(v), k)
  }

  /** `v.get(k)` on a dictionary (`None` for every other value). */
  function Get(v: Value, k: string): Value
  {
    Lookup(DictEntries(v), k)
  }

  /**
   * The idiom `x = getattr(v, k, None); if x is None and isinstance(v, dict):
   * x = v.get(k)`: the attribute first, then the dictionary key.
   */
  function Field(v: Value, k: string): Value
  {
    var a := Attr(v, k);
    if a != VNone then a else Get(v, k)
  }

  /**
   * Python's `int(v)`: booleans are 0 or 1, integers are themselves, strings
   * are parsed, and everything else (including `None`) raises, which is `None`.
   */
  function PyInt(v: Value): Option<int>
  {
    match v
    case VBool(b) => Some(if b then 1 else 0)
    case VInt(i) => Some(i)
    case VStr(s) => ParseInt(s)
    case _ => None
  }
}
