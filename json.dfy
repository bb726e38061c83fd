/** The decoded JSON values the device API returns and the stores hold.
    An object is a list of members in a fixed order; two values are equal
    when they are structurally equal. `undefined` is modelled as `Null`. */
module Json {
  import opened Wrappers

  datatype Json =
    | Null                      // also stands for `undefined`
    | Bool(b: bool)
    | Num(n: int)
    | Str(s: string)
    | Arr(items: seq<Json>)
    | Obj(members: seq<Member>)

  datatype Member = Member(key: string, value: Json)

  function Keys(ms: seq<Member>): set<string>
  {
    if ms == [] then {} else {ms[0].key} + Keys(ms[1..])
  }

  /** `obj[key]` on a member list: the value of the first member named `key`. */
  function Find(ms: seq<Member>, key: string): (r: Option<Json>)
    ensures r.None? <==> key !in Keys(ms)
  {
    if ms == [] then None
    else if ms[0].key == key then Some(ms[0].value)
    else Find(ms[1..], key)
  }

  /** The members of an object; anything else spreads to no members. */
  function MembersOf(v: Json): seq<Member>
  {
    if v.Obj? then v.members else []
  }

  /** `v[key]`, `None` standing for `undefined`. */
  function Get(v: Json, key: string): Option<Json>
  {
    Find(MembersOf(v), key)
  }

  /** `obj[key] = value`: the member named `key` is overwritten where it
      stands, or a new member is appended. */
  function Assign(ms: seq<Member>, key: string, value: Json): (r: seq<Member>)
    ensures Find(r, key) == Some(value)
    ensures forall k :: k != key ==> Find(r, k) == Find(ms, k)
    ensures Keys(r) == Keys(ms) + {key}
    ensures key in Keys(ms) ==> |r| == |ms|
  {
    if ms == [] then [Member(key, value)]
    else if ms[0].key == key then [Member(key, value)] + ms[1..]
    else [ms[0]] + Assign(ms[1..], key, value)
  }

  /** `{...v, [key]: value}`. */
  function Put(v: Json, key: string, value: Json): (r: Json)
    ensures r.Obj?
    ensures Get(r, key) == Some(value)
    ensures forall k :: k != key ==> Get(r, k) == Get(v, k)
  {
    Obj(Assign(MembersOf(v), key, value))
  }

  /** Writing the value a key already holds changes nothing. */
  lemma {:induction false} AssignUnchanged(ms: seq<Member>, key: string, value: Json)
    requires Find(ms, key) == Some(value)
    ensures Assign(ms, key, value) == ms
  {
    if ms[0].key != key {
      AssignUnchanged(ms[1..], key, value);
    }
  }

  lemma PutUnchanged(v: Json, key: string, value: Json)
    requires v.Obj? && Get(v, key) == Some(value)
    ensures Put(v, key, value) == v
  {
    AssignUnchanged(v.members, key, value);
  }
}
