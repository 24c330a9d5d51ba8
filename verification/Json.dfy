module Json {
  datatype Json = Null | Bool(b: bool) | Int(n: int) | Number(r: real) | Text(s: string)

  /** A JSON object: its members by name. */
  type Object = map<string, Json>
}
