/** The JSON tree the Jackson-backed components work on: a Java `Map<String, Object>` of
    configuration data, or a `JsonNode`, is one of these values. Object fields are a map, so
    the order in which Jackson keeps them is not part of this model. */
module JsonTree {
  datatype Tree =
    | Null
    | Str(s: string)
    | Num(n: int)
    | Bool(b: bool)
    | Arr(items: seq<Tree>)
    | Obj(fields: map<string, Tree>)
}
