/** Values that cross the socket.

    Inbound messages are modelled after `JSON.parse` has run: either the text
    was rejected (`Malformed`) or it produced a JavaScript value, of which only
    the three properties the code ever reads (`event`, `id`, `key`) are kept.
    Outbound control records are modelled before `JSON.stringify`; `AsJson`
    says what the peer's `JSON.parse` makes of them.
 */
module Wire {

  datatype Option<+T> = None | Some(value: T)

  /** An ISO-8601 time stamp. It is only ever copied, never compared. */
  type Timestamp = string

  /** One property of a decoded JSON value, as JavaScript reads it. */
  datatype Field =
    | Absent          // the property is missing and reads as `undefined`
    | Str(s: string)
    | Num(n: int)     // an integral JSON number
    | OtherValue      // a fractional number, a boolean, null, an array or an object

  /** The value `JSON.parse` produced. */
  datatype Json =
    | JNull           // reading any property of it throws a TypeError
    | JScalar         // a string, number, boolean or array: every property reads `undefined`
    | JObject(event: Field, id: Field, key: Field)

  /** An inbound socket message. */
  datatype Inbound = Malformed | Parsed(value: Json)

  /** The control records a peer writes. */
  datatype Record =
    | Auth(key: string)
    | Ping(pingId: nat, ts: Timestamp)
    | Pong(pongId: Field, ts: Timestamp)

  /** `record.event`; None when reading it throws. */
  function EventOf(j: Json): (r: Option<Field>)
    ensures r.None? <==> j.JNull?
  {
    match j
    case JNull => None
    case JScalar => Some(Absent)
    case JObject(event, _, _) => Some(event)
  }

  /** `record.key`; None when reading it throws. */
  function KeyOf(j: Json): (r: Option<Field>)
    ensures r.None? <==> j.JNull?
  {
    match j
    case JNull => None
    case JScalar => Some(Absent)
    case JObject(_, _, key) => Some(key)
  }

  /** What the receiving peer's `JSON.parse` yields for a record this peer
      serialised. `JSON.stringify` drops an `undefined` property, which then
      reads as `undefined` again, so every field survives the trip. */
  function AsJson(r: Record): (j: Json)
    ensures j.JObject?
    ensures r.Auth? ==> j.event == Str("AUTH") && j.key == Str(r.key)
    ensures r.Ping? ==> j.event == Str("PING") && j.id == Num(r.pingId)
    ensures r.Pong? ==> j.event == Str("PONG") && j.id == r.pongId
  {
    match r
    case Auth(key) => JObject(Str("AUTH"), Absent, Str(key))
    case Ping(id, _) => JObject(Str("PING"), Num(id), Absent)
    case Pong(id, _) => JObject(Str("PONG"), id, Absent)
  }
}
