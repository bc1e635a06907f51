// What the snapshot lane takes from elsewhere, as opaque functions: JSON text, the two snapshot
// validators, and the digest that names a snapshot.
module SnapshotCodec {
  import opened Options

  type Sid = string

  // JSON values; numbers stay in their textual form.
  datatype Json =
    | Null
    | Boolean(b: bool)
    | Number(text: string)
    | Text(text: string)
    | Array(items: seq<Json>)
    | Object(members: seq<(string, Json)>)

  // `validate` admits and normalises a plain snapshot, `verified` one that carries the mark of a
  // server recomputation.
  datatype Codec = Codec(
    decode: string -> Option<Json>,
    encode: Json -> string,
    validate: Json -> Option<Json>,
    verified: Json -> Option<Json>,
    sid: Json -> Sid
  ) {
    ghost predicate Lawful() {
      && (forall j :: decode(encode(j)) == Some(j) && encode(j) != "")
      && (forall j, s :: validate(j) == Some(s) ==> validate(s) == Some(s))
      && (forall j, s :: verified(j) == Some(s) ==> verified(s) == Some(s) && sid(s) == sid(j))
    }

    function Validator(trusted: bool): Json -> Option<Json> {
      if trusted then verified else validate
    }
  }
}
