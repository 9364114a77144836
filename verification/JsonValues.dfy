/** JSON values with members in source order, as `JSON.parse` leaves them. */
module JsonValues {
  import opened Options

  datatype Member = Member(key: string, value: Json)

  datatype Json =
    | Null
    | Bool(b: bool)
    | Num(n: real)
    | Str(s: string)
    | Arr(items: seq<Json>)
    | Obj(members: seq<Member>)

  /** `record[key]`, for a record whose own keys are the only ones there are. */
  function Get(members: seq<Member>, key: string): (found: Option<Json>)
    ensures found.Some? ==> exists i :: 0 <= i < |members| && members[i] == Member(key, found.value)
    ensures found.None? ==> forall i :: 0 <= i < |members| ==> members[i].key != key
  {
    if members == [] then None
    else if members[0].key == key then
      assert members[0] == Member(key, members[0].value);
      Some(members[0].value)
    else
      var found := Get(members[1..], key);
      assert forall i :: 0 <= i < |members[1..]| ==> members[1..][i] == members[i + 1];
      found
  }

  function Field(value: Json, key: string): Option<Json> {
    if value.Obj? then Get(value.members, key) else None
  }
}
