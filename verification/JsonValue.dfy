/** The values that travel between plugin and daemon, and what a reader returns. */
module JsonValue {
  datatype Json =
    | JNull
    | JBool(b: bool)
    | JInt(i: int)
    | JStr(s: string)
    | JArr(elems: seq<Json>)
    | JObj(members: seq<Member>)

  datatype Member = Member(key: string, value: Json)

  /** A reader's outcome: no value, or a value and the text after it. */
  datatype Parsed<+T> = Fail | Got(value: T, rest: string)
}
