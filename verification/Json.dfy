/** The JavaScript values conditions are evaluated against. */
module Json {
  import opened Wrappers

  datatype Json =
    | Undefined | Null | Bool(b: bool) | Num(n: int) | Str(s: string)
    | Arr(items: seq<Json>) | Obj(fields: map<string, Json>)

  /** `===`. Arrays and objects on the two sides come from different sources, so they are never the
      same reference. */
  predicate StrictEq(a: Json, b: Json)
  {
    !a.Arr? && !a.Obj? && a == b
  }

  predicate Includes(items: seq<Json>, x: Json)
  {
    exists i :: 0 <= i < |items| && StrictEq(items[i], x)
  }

  predicate IsDigits(s: string)
  {
    forall i :: 0 <= i < |s| ==> '0' <= s[i] <= '9'
  }

  function DigitsValue(s: string): nat
    requires IsDigits(s)
  {
    if s == "" then 0 else DigitsValue(s[..|s| - 1]) * 10 + (s[|s| - 1] as int - '0' as int)
  }

  /** The index a property name denotes, if it is one: digits without a leading zero. */
  function Index(name: string): Option<nat>
  {
    if name != "" && IsDigits(name) && (name == "0" || name[0] != '0') then
      Some(DigitsValue(name))
    else None
  }

  /** An own property of an object or array. */
  function Member(v: Json, name: string): Json
  {
    match v
    case Obj(fields) => if name in fields then fields[name] else Undefined
    case Arr(items) =>
      if name == "length" then Num(|items|)
      else if Index(name).Some? && Index(name).value < |items| then items[Index(name).value] else Undefined
    case Str(s) =>
      if name == "length" then Num(|s|)
      else if Index(name).Some? && Index(name).value < |s| then Str([s[Index(name).value]]) else Undefined
    case _ => Undefined
  }

  /** Follows `parts` from `v`. With `objectsOnly` a primitive has no properties; otherwise only null
      and undefined have none. */
  function Resolve(v: Json, parts: seq<string>, objectsOnly: bool): Json
    decreases |parts|
  {
    if parts == [] then v
    else if v.Null? || v.Undefined? || (objectsOnly && !v.Obj? && !v.Arr?) then Undefined
    else Resolve(Member(v, parts[0]), parts[1..], objectsOnly)
  }

  lemma {:induction false} ResolveUndefined(parts: seq<string>, objectsOnly: bool)
    ensures Resolve(Undefined, parts, objectsOnly) == Undefined
  {
  }

  /** A path can be followed in two stages. */
  lemma {:induction false} ResolveInStages(v: Json, first: seq<string>, second: seq<string>, objectsOnly: bool)
    ensures Resolve(v, first + second, objectsOnly) == Resolve(Resolve(v, first, objectsOnly), second, objectsOnly)
    decreases |first|
  {
    if first == [] {
      assert first + second == second;
    } else if v.Null? || v.Undefined? || (objectsOnly && !v.Obj? && !v.Arr?) {
      ResolveUndefined(second, objectsOnly);
    } else {
      assert (first + second)[1..] == first[1..] + second;
      ResolveInStages(Member(v, first[0]), first[1..], second, objectsOnly);
    }
  }

  /** The loop both services use. */
  method ResolveField(context: Json, parts: seq<string>, objectsOnly: bool) returns (current: Json)
    ensures current == Resolve(context, parts, objectsOnly)
  {
    current := context;
    var i := 0;
    while i < |parts|
      invariant 0 <= i <= |parts|
      invariant Resolve(context, parts, objectsOnly) == Resolve(current, parts[i..], objectsOnly)
    {
      if current.Null? || current.Undefined? || (objectsOnly && !current.Obj? && !current.Arr?) {
        return Undefined;
      }
      assert parts[i..][1..] == parts[i + 1..];
      current := Member(current, parts[i]);
      i := i + 1;
    }
  }
}
