/** The slice of Python's object model that the column codecs of
    qmpy/db/custom.py branch on: the built-in value kinds they test with
    `isinstance`, Python truthiness (`not value`), `str()`, iteration, the
    Latin-1 text/bytes conversion, and the exceptions they raise.
    Everything the codecs delegate to a foreign library is a field of `Lib`. */
module Python {
  import PyDict

  newtype byte = b: int | 0 <= b < 256

  /** Python exception classes that reach the callers of the codecs. */
  datatype Exception =
    | TypeError
    | ValueError
    | AttributeError
    | KeyError
    | UnicodeEncodeError
    | Raised(name: string)   // any other class, raised inside a foreign library

  /** A Python call either returns a value or raises. */
  datatype Result<+T> = Ok(value: T) | Raise(exc: Exception)

  /** Python objects. Dicts keep their insertion order, as Python's do.
      `ArrayObj(x)` is the ndarray that `np.array(x)` builds from `x`. */
  datatype Obj =
    | NoneObj
    | BoolObj(b: bool)
    | IntObj(i: int)
    | StrObj(s: string)
    | ListObj(items: seq<Obj>)
    | DictObj(entries: seq<(Obj, Obj)>)
    | DefaultDictObj(factory: Obj, entries: seq<(Obj, Obj)>)
    | ArrayObj(source: Obj)
    | ClassObj(name: string)   // a class object such as the builtin `list`

  /** The foreign code the codecs call, left uninterpreted. */
  datatype Lib = Lib(
    repr: Obj -> string,                  // str(x) for x not a str
    arrayTruth: Obj -> Result<bool>,      // bool(ndarray)
    arrayRows: Obj -> Result<seq<Obj>>,   // iter(ndarray); a 0-d array raises
    toList: Obj -> Obj,                   // ndarray.tolist()
    pickleDumps: Obj -> Result<seq<byte>>,// pickle.dumps(x, protocol=0)
    pickleLoads: seq<byte> -> Result<Obj>,// pickle.loads(b)
    literalEval: Obj -> Result<Obj>,      // ast.literal_eval(x)
    yamlLoad: Obj -> Result<Obj>,         // yaml.load(x)
    jsonLoads: Obj -> Result<Obj>,        // json.loads(x)
    jsonDumps: Obj -> Result<string>      // json.dumps(x)
  )

  /** `bool(v)`: empty containers, zero, "" and None are false;
      numpy decides for its arrays. */
  function Truth(lib: Lib, v: Obj): (r: Result<bool>)
    ensures !v.ArrayObj? ==> r.Ok?
    ensures v.ArrayObj? ==> r == lib.arrayTruth(v)
    ensures v.NoneObj? ==> r == Ok(false)
    ensures v.StrObj? ==> r == Ok(v.s != "")
    ensures v.ListObj? ==> r == Ok(v.items != [])
    ensures v.DictObj? || v.DefaultDictObj? ==> r == Ok(v.entries != [])
  {
    match v
    case NoneObj => Ok(false)
    case BoolObj(b) => Ok(b)
    case IntObj(i) => Ok(i != 0)
    case StrObj(s) => Ok(s != "")
    case ListObj(items) => Ok(items != [])
    case DictObj(es) => Ok(es != [])
    case DefaultDictObj(_, es) => Ok(es != [])
    case ArrayObj(_) => lib.arrayTruth(v)
    case ClassObj(_) => Ok(true)
  }

  /** `str(v)`: a string is its own string form. */
  function ToStr(lib: Lib, v: Obj): (s: string)
    ensures v.StrObj? ==> s == v.s
    ensures !v.StrObj? ==> s == lib.repr(v)
  {
    if v.StrObj? then v.s else lib.repr(v)
  }

  /** The items `for x in v` visits: list elements, one-character strings,
      dict keys, array rows; anything else is not iterable. */
  function Iterate(lib: Lib, v: Obj): (r: Result<seq<Obj>>)
    ensures v.ListObj? ==> r == Ok(v.items)
    ensures v.StrObj? ==> r.Ok? && |r.value| == |v.s| && forall i :: 0 <= i < |v.s| ==> r.value[i] == StrObj([v.s[i]])
    ensures v.DictObj? || v.DefaultDictObj? ==> r == Ok(PyDict.Keys(v.entries))
    ensures v.ArrayObj? ==> r == lib.arrayRows(v)
    ensures v.NoneObj? || v.BoolObj? || v.IntObj? || v.ClassObj? ==> r == Raise(TypeError)
  {
    match v
    case ListObj(items) => Ok(items)
    case StrObj(s) => Ok(seq(|s|, i requires 0 <= i < |s| => StrObj([s[i]])))
    case DictObj(es) => Ok(PyDict.Keys(es))
    case DefaultDictObj(_, es) => Ok(PyDict.Keys(es))
    case ArrayObj(_) => lib.arrayRows(v)
    case _ => Raise(TypeError)
  }

  /** Objects `hash()` accepts: lists, dicts and arrays are mutable and
      raise TypeError ("unhashable type") when used as a dict key. */
  predicate Hashable(v: Obj)
  {
    !(v.ListObj? || v.DictObj? || v.DefaultDictObj? || v.ArrayObj?)
  }

  predicate IsLatin1(s: string)
  {
    forall i :: 0 <= i < |s| ==> s[i] as int < 256
  }

  /** `bytes(s, "latin-1")`: one byte per character, or UnicodeEncodeError
      when a character lies above U+00FF. */
  function Latin1Encode(s: string): (r: Result<seq<byte>>)
    ensures r.Ok? <==> IsLatin1(s)
    ensures r.Ok? ==> |r.value| == |s| && forall i :: 0 <= i < |s| ==> r.value[i] as int == s[i] as int
  {
    if IsLatin1(s) then Ok(seq(|s|, i requires 0 <= i < |s| && IsLatin1(s) => s[i] as int as byte))
    else Raise(UnicodeEncodeError)
  }

  /** `str(b, "latin-1")`: every byte is the character with the same code. */
  function Latin1Decode(b: seq<byte>): (s: string)
    ensures |s| == |b| && IsLatin1(s)
    ensures forall i :: 0 <= i < |b| ==> s[i] as int == b[i] as int
  {
    seq(|b|, i requires 0 <= i < |b| => b[i] as int as char)
  }

  /** Latin-1 decoding loses nothing: encoding its text gives the bytes back. */
  lemma Latin1RoundTrip(b: seq<byte>)
    ensures Latin1Encode(Latin1Decode(b)) == Ok(b)
  {
    var r := Latin1Encode(Latin1Decode(b));
    assert r.value == b;
  }

  /** ...and the other way round, on the text Latin-1 can encode. */
  lemma Latin1TextRoundTrip(s: string)
    requires IsLatin1(s)
    ensures Latin1Decode(Latin1Encode(s).value) == s
  {
  }
}
