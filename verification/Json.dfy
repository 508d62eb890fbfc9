/** Decoded JSON values, as held in metadata maps and in a decoded agent card. */
module Json {

  datatype Option<+T> = None | Some(value: T)

  datatype Result<+T, +E> = Ok(value: T) | Err(error: E)

  /** What `encoding/json` yields with `UseNumber`: a number keeps its source text. */
  datatype Value =
    | Null
    | Bool(flag: bool)
    | Number(text: string)
    | String(chars: string)
    | Array(items: seq<Value>)
    | Object(members: map<string, Value>)

}
