/** Decoded JSON values as Python holds them after `json.loads`.
    An object is an insertion-ordered dictionary: a sequence of key/value
    entries, so the order in which keys were assigned is part of the value. */
module JsonValue {
  import opened Wrappers

  datatype Value =
    | Null
    | Bool(b: bool)
    | Int(i: int)
    | Float(r: real)
    | Str(s: string)
    | Arr(items: seq<Value>)
    | Obj(entries: seq<(string, Value)>)

  /** The keys of a dictionary, in insertion order. */
  function Keys(entries: seq<(string, Value)>): (ks: seq<string>)
    ensures |ks| == |entries|
    ensures forall i :: 0 <= i < |entries| ==> ks[i] == entries[i].0
  {
    if entries == [] then [] else [entries[0].0] + Keys(entries[1..])
  }

  /** `d[key]`: the value stored under `key`, or None where Python raises KeyError. */
  function Lookup(entries: seq<(string, Value)>, key: string): (r: Option<Value>)
    ensures r.None? <==> key !in Keys(entries)
    ensures r.Some? ==> (key, r.value) in entries
  {
    if entries == [] then None
    else if entries[0].0 == key then Some(entries[0].1)
    else Lookup(entries[1..], key)
  }

  /** The value `d[key]` finds is the one stored at the first entry for `key`. */
  lemma {:induction false} LookupFindsFirst(entries: seq<(string, Value)>, key: string, i: nat)
    requires i < |entries| && entries[i].0 == key && key !in Keys(entries[..i])
    ensures Lookup(entries, key) == Some(entries[i].1)
  {
    if i > 0 {
      assert entries[0].0 == Keys(entries[..i])[0];
      assert Keys(entries[1..][..i - 1]) == Keys(entries[..i])[1..];
      LookupFindsFirst(entries[1..], key, i - 1);
    }
  }

  /** `d[key] = v`: replaces the value of an existing key where it stands,
      or appends a new entry at the end. */
  function Assign(entries: seq<(string, Value)>, key: string, v: Value): (r: seq<(string, Value)>)
    ensures Lookup(r, key) == Some(v)
    ensures forall k :: k != key ==> Lookup(r, k) == Lookup(entries, k)
  {
    if entries == [] then [(key, v)]
    else if entries[0].0 == key then
      var r := [(key, v)] + entries[1..];
      assert r[1..] == entries[1..];
      r
    else
      var rest := Assign(entries[1..], key, v);
      var r := [entries[0]] + rest;
      assert r[0] == entries[0] && r[1..] == rest;
      r
  }
}
