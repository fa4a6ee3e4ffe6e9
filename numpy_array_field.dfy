/** NumpyArrayField: an ndarray stored as its protocol-0 pickle, read as
    Latin-1 text. */
module NumpyArrayField {
  import opened Python

  /** `np.array([])`. */
  const EmptyArray: Obj := ArrayObj(ListObj([]))

  /** `np.array(pickle.loads(bytes(str(value), "latin-1")))`. */
  function Unpickle(lib: Lib, value: Obj): (r: Result<Obj>)
    ensures r.Ok? ==> r.value.ArrayObj?
    ensures value.StrObj? && !IsLatin1(value.s) ==> r == Raise(UnicodeEncodeError)
    ensures value.StrObj? && IsLatin1(value.s) && lib.pickleLoads(Latin1Encode(value.s).value).Ok? ==>
              r == Ok(ArrayObj(lib.pickleLoads(Latin1Encode(value.s).value).value))
    ensures value.StrObj? && IsLatin1(value.s) && lib.pickleLoads(Latin1Encode(value.s).value).Raise? ==>
              r == Raise(lib.pickleLoads(Latin1Encode(value.s).value).exc)
  {
    match Latin1Encode(ToStr(lib, value))
    case Raise(e) => Raise(e)
    case Ok(bytes) =>
      match lib.pickleLoads(bytes)
      case Raise(e) => Raise(e)
      case Ok(x) => Ok(ArrayObj(x))
  }

  /** `from_db_value`: falsy text is the empty array, other text is
      unpickled into an array. */
  function FromDbValue(lib: Lib, value: Obj): (r: Result<Obj>)
    ensures value == NoneObj || value == StrObj("") ==> r == Ok(EmptyArray)
    ensures value.StrObj? && value.s != "" ==> r == Unpickle(lib, value)
    ensures r.Ok? ==> r.value.ArrayObj?
  {
    match Truth(lib, value)
    case Raise(e) => Raise(e)
    case Ok(truthy) => if !truthy then Ok(EmptyArray) else Unpickle(lib, value)
  }

  /** `to_python` as written: a list is first replaced by `np.array(list)`,
      the array numpy builds from the builtin class `list` rather than from
      the value; arrays are returned as they are. */
  function ToPython(lib: Lib, value: Obj): (r: Result<Obj>)
    ensures value.ArrayObj? ==> r == Ok(value)
    ensures !value.ArrayObj? && !value.ListObj? ==> r == FromDbValue(lib, value)
    ensures r.Ok? ==> r.value.ArrayObj?
  {
    var v := if value.ListObj? then ArrayObj(ClassObj("list")) else value;
    if v.ArrayObj? then Ok(v) else FromDbValue(lib, v)
  }

  /** `to_python` as evidently intended: `np.array(value)` for a list. */
  function ToPythonIntended(lib: Lib, value: Obj): (r: Result<Obj>)
    ensures value.ArrayObj? ==> r == Ok(value)
    ensures !value.ArrayObj? && !value.ListObj? ==> r == FromDbValue(lib, value)
    ensures r.Ok? ==> r.value.ArrayObj?
  {
    var v := if value.ListObj? then ArrayObj(value) else value;
    if v.ArrayObj? then Ok(v) else FromDbValue(lib, v)
  }

  /** `str(pickle.dumps(x, protocol=0), "latin-1")`: the pickle bytes as
      Latin-1 text, or the exception pickle raises. */
  function Pickled(lib: Lib, x: Obj): (r: Result<Obj>)
    ensures r.Ok? <==> lib.pickleDumps(x).Ok?
    ensures r.Ok? ==> r.value.StrObj? && Latin1Encode(r.value.s) == lib.pickleDumps(x)
    ensures r.Raise? ==> r.exc == lib.pickleDumps(x).exc
  {
    match lib.pickleDumps(x)
    case Raise(e) => Raise(e)
    case Ok(b) =>
      Latin1RoundTrip(b);
      Ok(StrObj(Latin1Decode(b)))
  }

  /** `get_prep_value`: a list, or an array through `tolist()`, is pickled
      and the bytes kept as Latin-1 text; anything else is a TypeError. */
  function GetPrepValue(lib: Lib, value: Obj): (r: Result<Obj>)
    ensures !value.ListObj? && !value.ArrayObj? ==> r == Raise(TypeError)
    ensures value.ListObj? ==> r == Pickled(lib, value)
    ensures value.ArrayObj? ==> r == Pickled(lib, lib.toList(value))
  {
    if value.ListObj? then Pickled(lib, value)
    else if value.ArrayObj? then Pickled(lib, lib.toList(value))
    else Raise(TypeError)
  }

  // ---------------------------------------------------------------------

  /** Falsy text never reaches the unpickler. */
  lemma EmptyTextSkipsUnpickler(lib: Lib, value: Obj, loads: seq<byte> -> Result<Obj>)
    requires value == NoneObj || value == StrObj("")
    ensures FromDbValue(lib.(pickleLoads := loads), value) == FromDbValue(lib, value) == Ok(EmptyArray)
  {
  }

  /** A list written and read back is the array of that list, provided
      pickle itself round-trips it (protocol-0 output is never empty). */
  lemma ListRoundTrip(lib: Lib, xs: seq<Obj>)
    requires lib.pickleDumps(ListObj(xs)).Ok? && lib.pickleDumps(ListObj(xs)).value != []
    requires lib.pickleLoads(lib.pickleDumps(ListObj(xs)).value) == Ok(ListObj(xs))
    ensures GetPrepValue(lib, ListObj(xs)).Ok?
    ensures FromDbValue(lib, GetPrepValue(lib, ListObj(xs)).value) == Ok(ArrayObj(ListObj(xs)))
  {
  }

  /** An array written and read back is the array of its `tolist()`. */
  lemma ArrayRoundTrip(lib: Lib, a: Obj)
    requires a.ArrayObj?
    requires lib.pickleDumps(lib.toList(a)).Ok? && lib.pickleDumps(lib.toList(a)).value != []
    requires lib.pickleLoads(lib.pickleDumps(lib.toList(a)).value) == Ok(lib.toList(a))
    ensures GetPrepValue(lib, a).Ok?
    ensures FromDbValue(lib, GetPrepValue(lib, a).value) == Ok(ArrayObj(lib.toList(a)))
  {
  }

  /** As written, `to_python` forgets the contents of every list: all lists
      give the same result, whatever they hold. */
  lemma ToPythonLosesListContents(lib: Lib, xs: seq<Obj>, ys: seq<Obj>)
    ensures ToPython(lib, ListObj(xs)) == ToPython(lib, ListObj(ys)) == Ok(ArrayObj(ClassObj("list")))
  {
  }

  /** The intended `to_python` keeps a list's contents, so different lists
      give different arrays. */
  lemma ToPythonIntendedKeepsList(lib: Lib, xs: seq<Obj>, ys: seq<Obj>)
    ensures ToPythonIntended(lib, ListObj(xs)) == Ok(ArrayObj(ListObj(xs)))
    ensures xs != ys ==> ToPythonIntended(lib, ListObj(xs)) != ToPythonIntended(lib, ListObj(ys))
  {
  }
}
