/** Places inside a parsed document. */
module JsonPaths {
  import opened Strings
  import opened JsonValue

  /** A step into a value: below a key of an object or to an item of an array. */
  datatype Place<K> = Below(key: K) | Item(index: nat)

  /** The value at a path, if there is one. */
  function At<K(==)>(j: Json<K>, path: seq<Place<K>>): Option<Json<K>>
    decreases |path|
  {
    if path == [] then Some(j)
    else match path[0]
      case Below(k) => if j.Object? && k in j.fields then At(j.fields[k], path[1..]) else None
      case Item(i) => if j.Array? && i < |j.items| then At(j.items[i], path[1..]) else None
  }
}
