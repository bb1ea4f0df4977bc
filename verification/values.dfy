/** JSON-like literal values that GraphQL arguments carry into the
    compiler and that end up in a statement's parameter map. */
module Values {

  datatype Json =
    | JNull
    | JBool(b: bool)
    | JNumber(n: int)
    | JString(s: string)
    | JArray(items: seq<Json>)
    | JObject(members: seq<(string, Json)>)

  /** Parameters of a statement, by name. */
  type Params = map<string, Json>

  /** `s.startsWith(prefix)` of JavaScript. */
  predicate StartsWith(s: string, prefix: string) {
    |prefix| <= |s| && s[..|prefix|] == prefix
  }
}
