/** The JSON objects the recipe API returns, as far as the core reads them:
    meal records, meal summaries and their string-or-null fields. */
module Json {

  /** A field value: a JSON string or JSON null. */
  datatype Value = Null | Str(s: string)

  /** A JSON object (a meal record or a meal summary): field name to value. */
  type Payload = map<string, Value>

  /** `payload.get(key) or ""`: the field's string, and "" when the key is
      absent or its value is null. */
  function Field(p: Payload, key: string): string
  {
    if key in p && p[key].Str? then p[key].s else ""
  }
}
