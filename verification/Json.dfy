/** Parsed JSON. A Dafny string has no lone surrogates, so a Python string that does
    is a value of its own: it equals no other string and cannot be encoded. */
module Json {
  import opened Wrappers

  datatype Json =
    | Null
    | Bool(b: bool)
    | Int(n: int)
    | Float(x: real)
    | Str(s: string)
    | IllFormed(id: nat, len: nat)
    | Arr(items: seq<Json>)
    | Obj(members: seq<(string, Json)>)

  predicate IsText(v: Json) { v.Str? || v.IllFormed? }

  function TextLength(v: Json): nat
    requires IsText(v)
  {
    if v.Str? then |v.s| else v.len
  }

  function Lookup(members: seq<(string, Json)>, key: string): (r: Option<Json>)
    ensures r.Some? ==> (key, r.value) in members
    ensures r.None? ==> forall m :: m in members ==> m.0 != key
  {
    if members == [] then None
    else
      var last := members[|members| - 1];
      if last.0 == key then Some(last.1) else Lookup(members[..|members| - 1], key)
  }

  /** `v.get(key)` when `v` is a mapping, and nothing otherwise. */
  function Get(v: Json, key: string): Option<Json> {
    if v.Obj? then Lookup(v.members, key) else None
  }
}
