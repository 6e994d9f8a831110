/**
 * JSON values as the client sees them after `json.loads` and before `json.dumps`.
 * Parsing and serialisation themselves are not modelled: they are passed around as
 * functions, and the only thing assumed of the serialiser is that a JSON array is
 * written starting with `[`.
 */
module JsonValue {

  /** Numbers keep their literal text, so no floating-point arithmetic is involved. */
  datatype Json =
    | Null
    | Bool(b: bool)
    | Number(literal: string)
    | Str(text: string)
    | Array(elems: seq<Json>)
    | Object(members: seq<(string, Json)>)

  /** What `json.dumps` guarantees for a list: its text opens with `[`. */
  ghost predicate ListSerializer(dumps: Json -> string) {
    forall v: Json :: v.Array? ==> dumps(v) != [] && dumps(v)[0] == '['
  }
}
