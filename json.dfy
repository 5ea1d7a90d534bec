/** The shapes of a JSON value that the custom decoders distinguish, and what Go's
    encoding/json does when asked to decode one into an int, a bool or a string. */
module Json {
  import opened Wrappers

  /** `JInt` is an integer literal (optional minus sign and digits only); `JNumber` is any
      other number literal (with a fraction or an exponent). */
  datatype Json =
    | JNull
    | JBool(b: bool)
    | JInt(i: int)
    | JNumber
    | JString(s: string)
    | JArray
    | JObject

  /** Range of Go's 64-bit `int`. */
  const MinInt: int := -0x8000_0000_0000_0000
  const MaxInt: int := 0x7FFF_FFFF_FFFF_FFFF

  /** `json.Unmarshal(b, &i)` for a fresh `var i int`: `null` leaves the zero value. */
  function DecodeInt(j: Json): (r: Result<int>)
    ensures r.Ok? <==> j.JNull? || (j.JInt? && MinInt <= j.i <= MaxInt)
    ensures r.Ok? && j.JInt? ==> r.value == j.i
    ensures j.JNull? ==> r == Ok(0)
  {
    match j
    case JNull => Ok(0)
    case JInt(i) => if MinInt <= i <= MaxInt then Ok(i) else Err("json: cannot unmarshal number into Go value of type int")
    case _ => Err("json: cannot unmarshal into Go value of type int")
  }

  /** `json.Unmarshal(b, &v)` for a fresh `var v bool`. */
  function DecodeBool(j: Json): (r: Result<bool>)
    ensures r.Ok? <==> j.JNull? || j.JBool?
    ensures j.JBool? ==> r == Ok(j.b)
    ensures j.JNull? ==> r == Ok(false)
  {
    match j
    case JNull => Ok(false)
    case JBool(b) => Ok(b)
    case _ => Err("json: cannot unmarshal into Go value of type bool")
  }

  /** `json.Unmarshal(b, &s)` for a fresh `var s string`. */
  function DecodeString(j: Json): (r: Result<string>)
    ensures r.Ok? <==> j.JNull? || j.JString?
    ensures j.JString? ==> r == Ok(j.s)
    ensures j.JNull? ==> r == Ok("")
  {
    match j
    case JNull => Ok("")
    case JString(s) => Ok(s)
    case _ => Err("json: cannot unmarshal into Go value of type string")
  }
}
