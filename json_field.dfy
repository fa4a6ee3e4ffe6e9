/** JSONField: any JSON value stored as its `json.dumps` text. Unlike the
    other fields, falsy input is passed through as it is. */
module JSONField {
  import opened Python

  /** `from_db_value`: falsy input is returned unchanged, anything else is
      handed to `json.loads`. */
  function FromDbValue(lib: Lib, value: Obj): (r: Result<Obj>)
    ensures value == NoneObj || value == StrObj("") ==> r == Ok(value)
    ensures value.StrObj? && value.s != "" ==> r == lib.jsonLoads(value)
  {
    match Truth(lib, value)
    case Raise(e) => Raise(e)
    case Ok(truthy) => if !truthy then Ok(value) else lib.jsonLoads(value)
  }

  /** `to_python`: falsy input and every non-string are returned unchanged;
      only a non-empty string is parsed. */
  function ToPython(lib: Lib, value: Obj): (r: Result<Obj>)
    ensures !value.ArrayObj? && !(value.StrObj? && value.s != "") ==> r == Ok(value)
    ensures value.StrObj? && value.s != "" ==> r == FromDbValue(lib, value)
  {
    match Truth(lib, value)
    case Raise(e) => Raise(e)
    case Ok(truthy) =>
      if !truthy then Ok(value)
      else if !value.StrObj? then Ok(value)
      else lib.jsonLoads(value)
  }

  /** `get_prep_value`: the `json.dumps` text, or the exception it raises. */
  function GetPrepValue(lib: Lib, value: Obj): (r: Result<Obj>)
    ensures r.Ok? <==> lib.jsonDumps(value).Ok?
    ensures r.Ok? ==> r.value == StrObj(lib.jsonDumps(value).value)
    ensures r.Raise? ==> r.exc == lib.jsonDumps(value).exc
  {
    match lib.jsonDumps(value)
    case Ok(text) => Ok(StrObj(text))
    case Raise(e) => Raise(e)
  }

  // ---------------------------------------------------------------------

  /** `to_python` consults `json.loads` on non-empty strings only. */
  lemma OnlyTextIsParsed(lib: Lib, value: Obj, loads: Obj -> Result<Obj>)
    requires !(value.StrObj? && value.s != "")
    ensures ToPython(lib.(jsonLoads := loads), value) == ToPython(lib, value)
  {
  }

  /** Absence is not coerced: None and "" read back as themselves. */
  lemma AbsentPassesThrough(lib: Lib, loads: Obj -> Result<Obj>)
    ensures FromDbValue(lib.(jsonLoads := loads), NoneObj) == ToPython(lib, NoneObj) == Ok(NoneObj)
    ensures FromDbValue(lib.(jsonLoads := loads), StrObj("")) == ToPython(lib, StrObj("")) == Ok(StrObj(""))
  {
  }

  /** A value written and read back is that value, when `json.loads`
      inverts `json.dumps` on it (JSON text is never empty). */
  lemma RoundTrip(lib: Lib, value: Obj)
    requires lib.jsonDumps(value).Ok? && lib.jsonDumps(value).value != ""
    requires lib.jsonLoads(StrObj(lib.jsonDumps(value).value)) == Ok(value)
    ensures GetPrepValue(lib, value).Ok?
    ensures FromDbValue(lib, GetPrepValue(lib, value).value) == Ok(value)
    ensures ToPython(lib, GetPrepValue(lib, value).value) == Ok(value)
  {
  }
}
