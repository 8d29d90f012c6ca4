/** JSON values as serde_json has them; an object is its entries in iteration order. */
module JsonValues {
  datatype Json =
    | JNull
    | JBool(flag: bool)
    | JNumber(number: real)
    | JString(text: string)
    | JArray(items: seq<Json>)
    | JObject(entries: seq<(string, Json)>)
}
