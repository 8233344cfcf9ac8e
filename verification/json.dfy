/**
 * A decoded JSON value as Python holds it after `json.loads`: objects are
 * dicts whose members keep their order, numbers are compared by value.
 */
module Json {
  import opened Wrappers

  datatype Json =
    | Null
    | Bool(b: bool)
    | Num(n: real)
    | Str(s: string)
    | Arr(items: seq<Json>)
    | Obj(members: seq<(string, Json)>)

  /**
   * `d.get(key)` on an object: the value of the first member with that key.
   * A decoded dict holds each key once (`json.loads` keeps the last of a
   * repeated key), so on such members the first is the only one.
   */
  function Get(members: seq<(string, Json)>, key: string): (r: Option<Json>)
    ensures r.Some? ==> exists i :: 0 <= i < |members| && members[i] == (key, r.value)
    ensures r.None? ==> forall i :: 0 <= i < |members| ==> members[i].0 != key
  {
    if members == [] then None
    else if members[0].0 == key then Some(members[0].1)
    else
      var r := Get(members[1..], key);
      if r.Some? then
        var i :| 0 <= i < |members[1..]| && members[1..][i] == (key, r.value);
        assert members[i + 1] == (key, r.value);
        r
      else r
  }

  /** Members before the first one with the key do not change what `get` finds. */
  lemma {:induction false} GetSkip(members: seq<(string, Json)>, key: string, i: nat)
    requires i <= |members| && forall j :: 0 <= j < i ==> members[j].0 != key
    ensures Get(members, key) == Get(members[i..], key)
  {
    if i > 0 {
      assert members[1..][i - 1..] == members[i..];
      GetSkip(members[1..], key, i - 1);
    }
  }

  /** `get` finds the first member with the key. */
  lemma GetAt(members: seq<(string, Json)>, key: string, i: nat)
    requires i < |members| && members[i].0 == key && forall j :: 0 <= j < i ==> members[j].0 != key
    ensures Get(members, key) == Some(members[i].1)
  {
    GetSkip(members, key, i);
  }

  /** `v.get(key)` where `v` is an object, and None for any other value. */
  function Member(v: Json, key: string): Option<Json> {
    if v.Obj? then Get(v.members, key) else None
  }

  /** `v.get(key, default)` on an object. */
  function MemberOr(v: Json, key: string, default: Json): (r: Json)
    ensures Member(v, key).None? ==> r == default
    ensures Member(v, key).Some? ==> r == Member(v, key).value
  {
    match Member(v, key)
    case Some(x) => x
    case None => default
  }

  /** Python's truth value of a decoded value. */
  predicate Truthy(v: Json) {
    match v
    case Null => false
    case Bool(b) => b
    case Num(n) => n != 0.0
    case Str(s) => s != []
    case Arr(items) => items != []
    case Obj(members) => members != []
  }

  /** `x == k` for a decoded value and a Python int: numbers by value, and `True == 1`, `False == 0`. */
  predicate EqualsInt(v: Json, k: int) {
    (v.Num? && v.n == k as real) || (v.Bool? && (if v.b then 1 else 0) == k)
  }

  /** The keys of an object, in order. */
  function Keys(members: seq<(string, Json)>): (r: seq<string>)
    ensures |r| == |members|
    ensures forall i :: 0 <= i < |members| ==> r[i] == members[i].0
  {
    if members == [] then [] else [members[0].0] + Keys(members[1..])
  }

  /** `key in d`. */
  predicate HasKey(members: seq<(string, Json)>, key: string) {
    Get(members, key).Some?
  }

  /** Python's `a or b` on decoded values. */
  function OrJson(a: Json, b: Json): (r: Json)
    ensures Truthy(r) <==> Truthy(a) || Truthy(b)
    ensures Truthy(a) ==> r == a
  {
    if Truthy(a) then a else b
  }
}
