/** Decoded JSON documents, with integers and exact decimals kept apart as the decoder keeps them. */
module Json {
  datatype Json =
    | Null
    | Bool(b: bool)
    | Int(i: int)
    | Decimal(d: real)
    | NonFinite            // the NaN and Infinity literals, which decode to floats
    | Text(s: string)
    | Array(items: seq<Json>)
    | Object(fields: map<string, Json>)
}
