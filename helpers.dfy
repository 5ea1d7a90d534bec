/** The `BoolOrInt` JSON field (internal/plex/api/helpers.go, plex/helpers.go): the server sends
    some flags as 0/1 and others as true/false. */
module Helpers {
  import opened Wrappers
  import opened Json

  /** `BoolOrInt.UnmarshalJSON`: first try an int, accepting only 0 and 1; otherwise decode a
      bool and report its error. A JSON `null` decodes as the int 0, so as false. */
  function UnmarshalBoolOrInt(j: Json): (r: Result<bool>)
    ensures j == JInt(0) ==> r == Ok(false)
    ensures j == JInt(1) ==> r == Ok(true)
    ensures j.JBool? ==> r == Ok(j.b)
    ensures j.JNull? ==> r == Ok(false)
    ensures r.Ok? <==> j.JBool? || j.JNull? || j == JInt(0) || j == JInt(1)
  {
    var isInt := DecodeInt(j);
    if isInt.Ok? && (isInt.value == 0 || isInt.value == 1) then
      if isInt.value != 0 && isInt.value != 1 then
        // The inner range check of the source cannot fail once the outer one holds.
        assert false;
        Err("invalid BoolOrInt")
      else
        Ok(isInt.value == 1)
    else
      match DecodeBool(j)
      case Err(e) => Err(e)
      case Ok(b) => Ok(b)
  }
}
