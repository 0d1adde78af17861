/** Parsed JSON and YAML documents, over any type of object keys. */
module JsonValue {

  datatype Json<K(==)> = Null | Bool(flag: bool) | Number(number: int) | Str(text: string)
                       | Array(items: seq<Json<K>>) | Object(fields: map<K, Json<K>>)

  /** `value.get(key)` of an object. */
  function Get<K(==)>(value: Json<K>, key: K): Json<K>
    requires value.Object?
  {
    if key in value.fields then value.fields[key] else Null
  }

  /** Python's truth value. */
  predicate Truthy<K(==)>(value: Json<K>) {
    match value
    case Null => false
    case Bool(b) => b
    case Number(n) => n != 0
    case Str(s) => s != []
    case Array(items) => items != []
    case Object(fields) => fields != map[]
  }
}
