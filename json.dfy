/** The values Python's `json.loads` produces and the dictionaries the
    `to_dict` serialisers build: None, bool, int, float, str, list and dict. */
module Json {
  import opened Wrappers

  datatype Value =
    | Null
    | Bool(b: bool)
    | Int(i: int)
    | Float(r: real)
    | Str(s: string)
    | Arr(items: seq<Value>)
    | Obj(fields: map<string, Value>)

  /** Python's `d.get(key, default)`. */
  function Get(fields: map<string, Value>, key: string, default: Value): Value {
    if key in fields then fields[key] else default
  }

  /** The text under `key`, or `default` when the key is absent or holds
      something other than a string. */
  function GetText(fields: map<string, Value>, key: string, default: string): (r: string)
    ensures key !in fields ==> r == default
    ensures key in fields && fields[key].Str? ==> r == fields[key].s
  {
    if key in fields && fields[key].Str? then fields[key].s else default
  }

  /** The string elements of the list under `key`; empty when the key is
      absent or holds something other than a list. */
  function GetTextList(fields: map<string, Value>, key: string): (r: seq<string>)
    ensures key !in fields ==> r == []
    ensures key in fields ==> AsTextList(fields[key]).Some? ==> r == AsTextList(fields[key]).value
  {
    if key in fields && fields[key].Arr? then StringsOf(fields[key].items) else []
  }

  /** The strings among `vs`, in order. */
  function StringsOf(vs: seq<Value>): (r: seq<string>)
    ensures (forall i :: 0 <= i < |vs| ==> vs[i].Str?) ==>
      |r| == |vs| && forall i :: 0 <= i < |vs| ==> r[i] == vs[i].s
    decreases |vs|
  {
    if |vs| == 0 then []
    else StringsOf(vs[..|vs| - 1]) + (if vs[|vs| - 1].Str? then [vs[|vs| - 1].s] else [])
  }

  /** A list of strings as a JSON list. */
  function TextList(xs: seq<string>): (v: Value)
    ensures v.Arr? && |v.items| == |xs|
    ensures forall i :: 0 <= i < |xs| ==> v.items[i] == Str(xs[i])
  {
    Arr(seq(|xs|, i requires 0 <= i < |xs| => Str(xs[i])))
  }

  /** The string a value holds, if it is one. */
  function AsText(v: Value): Option<string> {
    if v.Str? then Some(v.s) else None
  }

  /** The strings a value holds, if it is a list of strings. */
  function AsTextList(v: Value): Option<seq<string>> {
    if v.Arr? && forall i :: 0 <= i < |v.items| ==> v.items[i].Str? then Some(StringsOf(v.items)) else None
  }

  /** Reading a list of strings back gives the strings that were written. */
  lemma TextListRoundTrip(xs: seq<string>)
    ensures AsTextList(TextList(xs)) == Some(xs)
  {
    var v := TextList(xs);
    assert StringsOf(v.items) == xs;
  }

  /** An optional string as JSON: `None` becomes null. */
  function OptText(o: Option<string>): Value {
    match o
    case None => Null
    case Some(s) => Str(s)
  }

  /** Reads back an optional string written by `OptText`. */
  function AsOptText(v: Value): Option<Option<string>> {
    match v
    case Null => Some(None)
    case Str(s) => Some(Some(s))
    case _ => None
  }
}
