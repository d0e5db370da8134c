/** The JSON tree handed to a policy factory's config parser. */
module JsonValue {

  /** A JSON value. Numbers keep their textual form; an object maps each key
      to one value, as a JSON object does after parsing. */
  datatype Json =
    | Null
    | Bool(b: bool)
    | Number(repr: string)
    | String(s: string)
    | Array(items: seq<Json>)
    | Object(members: map<string, Json>)

  /** The empty object `{}`. */
  const EmptyObject: Json := Object(map[])
}
