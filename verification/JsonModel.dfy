/**
  JSON documents as Python's json module produces them. Objects keep their
  insertion order, so an object is a sequence of members.
 */
module JsonModel {
  import opened Prelude

  datatype Json =
    | JNull
    | JBool(flag: bool)
    | JInt(n: int)
    | JFloat(r: real)
    | JString(s: string)
    | JArray(items: seq<Json>)
    | JObject(members: seq<Member>)

  datatype Member = Member(key: string, value: Json)

  /** dict.get(key): the member's value, or None. */
  function Lookup(members: seq<Member>, key: string): (value: Option<Json>) {
    if members == [] then None
    else if members[0].key == key then Some(members[0].value)
    else Lookup(members[1..], key)
  }

  /** isinstance(value, int): Python's bool is an int. */
  function AsInt(value: Option<Json>): (number: Option<int>) {
    match value
    case Some(JInt(n)) => Some(n)
    case Some(JBool(b)) => Some(if b then 1 else 0)
    case _ => None
  }

  /** isinstance(value, int | float), converted with float(). */
  function AsNumber(value: Option<Json>): (number: Option<real>) {
    match value
    case Some(JFloat(r)) => Some(r)
    case _ =>
      match AsInt(value)
      case Some(n) => Some(n as real)
      case None => None
  }

  /** isinstance(value, str). */
  function AsString(value: Option<Json>): (text: Option<string>) {
    match value
    case Some(JString(s)) => Some(s)
    case _ => None
  }
}
