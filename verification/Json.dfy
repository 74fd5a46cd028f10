/** JSON values as `serde_json` holds them: an object is an ordered map with unique keys. */
module Json {
  import opened Common

  type U64 = n: int | 0 <= n <= 0xFFFF_FFFF_FFFF_FFFF

  type NegativeI64 = i: int | -0x8000_0000_0000_0000 <= i < 0 witness -1

  /** A float is kept as the text it prints to. */
  datatype Number = PosInt(n: U64) | NegInt(i: NegativeI64) | Float(text: string)

  datatype Json =
    | Null
    | Bool(b: bool)
    | Number(number: Number)
    | String(s: string)
    | Array(items: seq<Json>)
    | Object(entries: JsonObject)

  type JsonObject = seq<(string, Json)>

  predicate HasKey(o: JsonObject, key: string) { exists i | 0 <= i < |o| :: o[i].0 == key }

  function Get(o: JsonObject, key: string): (r: Option<Json>)
    ensures r.Some? <==> HasKey(o, key)
    ensures r.Some? ==> (key, r.value) in o
  {
    if o == [] then None
    else if o[0].0 == key then Some(o[0].1)
    else
      assert forall i | 0 < i < |o| :: o[i] == o[1..][i - 1];
      Get(o[1..], key)
  }

  /** No key twice, in the object and in every object below it. */
  predicate UniqueKeys(value: Json) {
    match value
    case Array(items) => forall i | 0 <= i < |items| :: UniqueKeys(items[i])
    case Object(entries) =>
      && (forall i, j | 0 <= i < j < |entries| :: entries[i].0 != entries[j].0)
      && forall i | 0 <= i < |entries| :: UniqueKeys(entries[i].1)
    case _ => true
  }

  lemma GetUnique(o: JsonObject, i: nat)
    requires UniqueKeys(Object(o)) && i < |o|
    ensures Get(o, o[i].0) == Some(o[i].1)
  {
  }

  lemma GetKeepsUniqueKeys(o: JsonObject, key: string)
    requires UniqueKeys(Object(o)) && Get(o, key).Some?
    ensures UniqueKeys(Get(o, key).value)
  {
  }

  /** `Map::insert`: a new key goes last, a known key keeps its place. */
  function Insert(o: JsonObject, key: string, value: Json): JsonObject {
    if o == [] then [(key, value)]
    else if o[0].0 == key then [(key, value)] + o[1..]
    else [o[0]] + Insert(o[1..], key, value)
  }

  lemma {:induction false} InsertNewKey(o: JsonObject, key: string, value: Json)
    requires !HasKey(o, key)
    ensures Insert(o, key, value) == o + [(key, value)]
  {
    if o != [] {
      assert forall i | 0 <= i < |o[1..]| :: o[1..][i] == o[i + 1];
      InsertNewKey(o[1..], key, value);
    }
  }

  // ----- Locations -----

  datatype Step = Key(key: string) | Index(index: nat)

  /** The value at a location, if there is one. */
  function At(value: Json, location: seq<Step>): Option<Json> {
    if location == [] then Some(value)
    else
      match (value, location[0])
      case (Object(entries), Key(key)) =>
        (match Get(entries, key) case None => None case Some(child) => At(child, location[1..]))
      case (Array(items), Index(i)) => if i < |items| then At(items[i], location[1..]) else None
      case _ => None
  }
}
