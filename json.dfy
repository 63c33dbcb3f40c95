/** The JSON values the LLM replies decode to, with Python's truthiness and
    `str()` rendering, and the selection of the `{ ... }` part of a reply. */
module Json {
  import opened Wrappers
  import opened Text

  /** A decoded JSON value. A float keeps its Python `repr` text and whether it
      is nonzero; objects keep their key order. */
  datatype Value =
    | Null
    | Bool(b: bool)
    | Int(i: int)
    | Float(repr: string, nonzero: bool)
    | Str(s: string)
    | List(items: seq<Value>)
    | Obj(entries: seq<(string, Value)>)

  /** A decoded top-level JSON object: the property dictionary. */
  type Props = map<string, Value>

  /** Python's `bool(v)`. */
  predicate Truthy(v: Value) {
    match v
    case Null => false
    case Bool(b) => b
    case Int(i) => i != 0
    case Float(_, nz) => nz
    case Str(s) => s != ""
    case List(items) => items != []
    case Obj(entries) => entries != []
  }

  /** `str(v)` when `quoted` is false and `repr(v)` when it is true. */
  function Render(v: Value, quoted: bool): string
    decreases v
  {
    match v
    case Null => "None"
    case Bool(b) => if b then "True" else "False"
    case Int(i) => IntToString(i)
    case Float(r, _) => r
    case Str(s) => if quoted then "'" + s + "'" else s
    case List(items) =>
      "[" + Join(", ", seq(|items|, k requires 0 <= k < |items| => Render(items[k], true))) + "]"
    case Obj(entries) =>
      "{" + Join(", ", seq(|entries|, k requires 0 <= k < |entries| =>
        assert entries[k] in entries;
        "'" + entries[k].0 + "': " + Render(entries[k].1, true))) + "}"
  }

  /** Python's `str(v)`. */
  function PyStr(v: Value): (r: string)
    ensures v.Str? ==> r == v.s
    ensures v.Int? && v.i >= 0 ==> AllDigits(r) && DigitsValue(r) == v.i
  {
    if v.Int? && v.i >= 0 then NatToStringRoundTrip(v.i); Render(v, false)
    else Render(v, false)
  }

  /** `d.get(k)`: the value stored at `k`, or None. */
  function Get(p: Props, k: string): (v: Value)
    ensures k !in p ==> v == Null
    ensures k in p ==> v == p[k]
  {
    if k in p then p[k] else Null
  }

  /** `obj.get(k)` on a decoded JSON object: the value of the last entry with
      key `k` (a repeated key keeps its last value), or None. */
  function ObjGet(entries: seq<(string, Value)>, k: string): (v: Value)
    ensures v == Null || exists i :: 0 <= i < |entries| && entries[i] == (k, v)
    ensures (forall i :: 0 <= i < |entries| ==> entries[i].0 != k) ==> v == Null
  {
    if entries == [] then Null
    else if entries[|entries| - 1].0 == k then entries[|entries| - 1].1
    else ObjGet(entries[..|entries| - 1], k)
  }

  /** The part of `text` from its first '{' to its last '}' inclusive, or None
      when there is no '{' or no '}' after it. */
  function JsonSlice(text: string): (r: Option<string>)
    ensures r.None? <==> !exists i, j :: 0 <= i < j < |text| && text[i] == '{' && text[j] == '}'
    ensures r.Some? ==> |r.value| >= 2 && r.value[0] == '{' && r.value[|r.value| - 1] == '}'
    ensures r.Some? ==>
              exists i :: 0 <= i && i + |r.value| <= |text| && text[i..i + |r.value|] == r.value
                && '{' !in text[..i] && '}' !in text[i + |r.value|..]
  {
    var start := Find(text, '{');
    var end := RFind(text, '}') + 1;
    if start != -1 && end > start then
      assert text[start..end][0] == text[start];
      assert text[..end][end - 1] == text[end - 1];
      Some(text[start..end])
    else
      forall i, j | 0 <= i < j < |text| && text[i] == '{'
        ensures text[j] != '}'
      {
        assert forall k :: 0 <= k < start ==> text[..start][k] == text[k];
        assert forall k :: end <= k < |text| ==> text[end..][k - end] == text[k];
      }
      None
  }
}
