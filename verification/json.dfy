/** The decoded JSON value the converter works on. */
module Json {

  /**
   * A JSON value as the decoder hands it over. A number keeps the text it was
   * written with (the decoder's `json.Number`), so no precision is lost.
   */
  datatype Json =
    | Null
    | Bool(b: bool)
    | Num(text: string)
    | Str(s: string)
    | Arr(elems: seq<Json>)
    | Obj(fields: map<string, Json>)
}
