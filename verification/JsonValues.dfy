/** Parsed JSON, as the program's JSON library hands it over. */
module JsonValues {
  import opened Options

  /** `Number` is an integer of at most 64 bits, `Decimal` any other number as it prints.
      Objects are maps, as the library keeps them sorted by key. */
  datatype Json = Null | Bool(b: bool) | Number(n: int) | Decimal(printed: string) | Text(s: string)
                | List(items: seq<Json>) | Object(fields: map<string, Json>) {

    /** `value[key]`: null when there is no such member. */
    function At(key: string): Json {
      if Object? && key in fields then fields[key] else Null
    }

    /** `value.get(key)`. */
    function Get(key: string): Option<Json> {
      if Object? && key in fields then Some(fields[key]) else None
    }

    function AsText(): Option<string> {
      if Text? then Some(s) else None
    }
  }
}
