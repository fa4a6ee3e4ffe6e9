/** DictField: a dict stored as the text of `str(dict)`. Reading tries the
    strict literal parser and falls back to the YAML loader. */
module DictField {
  import opened Python

  /** `to_python`, and `from_db_value`, whose body is the same: falsy input
      becomes {}, a dict is already decoded, anything else goes to
      `ast.literal_eval` and, should that raise, to `yaml.load`. */
  function ToPython(lib: Lib, value: Obj): (r: Result<Obj>)
    ensures value == NoneObj || value == StrObj("") ==> r == Ok(DictObj([]))
    ensures value.DictObj? ==> r == Ok(value)
    ensures value.DefaultDictObj? ==> r == Ok(if value.entries == [] then DictObj([]) else value)
  {
    match Truth(lib, value)
    case Raise(e) => Raise(e)
    case Ok(truthy) =>
      var v := if truthy then value else DictObj([]);
      if v.DictObj? || v.DefaultDictObj? then Ok(v)   // isinstance(v, dict) holds of a defaultdict too
      else
        match lib.literalEval(v)
        case Ok(x) => Ok(x)
        case Raise(_) => lib.yamlLoad(v)   // the bare `except:` catches every exception
  }

  /** `get_prep_value`: None stays None; a defaultdict is first made a plain
      dict; the value is then stored as its `str()`. */
  function GetPrepValue(lib: Lib, value: Obj): (r: Obj)
    ensures r == NoneObj <==> value == NoneObj
    ensures r != NoneObj ==> r.StrObj?
    ensures value.StrObj? ==> r == value
    ensures value.DictObj? ==> r == StrObj(lib.repr(value))
    ensures value.DefaultDictObj? ==> r == StrObj(lib.repr(DictObj(value.entries)))
  {
    if value.NoneObj? then value
    else
      var v := if value.DefaultDictObj? then DictObj(value.entries) else value;
      StrObj(ToStr(lib, v))
  }

  // ---------------------------------------------------------------------

  /** Falsy input and dicts never reach either parser. */
  lemma DictsSkipParsers(lib: Lib, value: Obj, literal: Obj -> Result<Obj>, yaml: Obj -> Result<Obj>)
    requires value == NoneObj || value == StrObj("") || value.DictObj? || value.DefaultDictObj?
    ensures ToPython(lib.(literalEval := literal, yamlLoad := yaml), value) == ToPython(lib, value)
    ensures ToPython(lib, value).Ok?
    ensures ToPython(lib, value).value.DictObj? || ToPython(lib, value).value.DefaultDictObj?
  {
  }

  /** When the literal parser succeeds its result is taken and the YAML
      loader is never consulted. */
  lemma StrictParserFirst(lib: Lib, text: string, yaml: Obj -> Result<Obj>)
    requires text != "" && lib.literalEval(StrObj(text)).Ok?
    ensures ToPython(lib.(yamlLoad := yaml), StrObj(text)) == ToPython(lib, StrObj(text)) == lib.literalEval(StrObj(text))
  {
  }

  /** When the literal parser raises, whatever exception it is, the
      result is the YAML loader's, success or exception. */
  lemma YamlFallback(lib: Lib, text: string, literal: Obj -> Result<Obj>)
    requires text != "" && lib.literalEval(StrObj(text)).Raise? && literal(StrObj(text)).Raise?
    ensures ToPython(lib.(literalEval := literal), StrObj(text)) == ToPython(lib, StrObj(text)) == lib.yamlLoad(StrObj(text))
  {
  }

  /** A defaultdict is stored exactly as the plain dict with its entries. */
  lemma DefaultDictStoredAsDict(lib: Lib, factory: Obj, es: seq<(Obj, Obj)>)
    ensures GetPrepValue(lib, DefaultDictObj(factory, es)) == GetPrepValue(lib, DictObj(es))
  {
  }

  /** Writing then reading a dict gives back the plain dict with the same
      entries, a defaultdict included, when the literal parser reads
      `str(dict)` back. */
  lemma DictRoundTrip(lib: Lib, value: Obj)
    requires value.DictObj? || value.DefaultDictObj?
    requires lib.repr(DictObj(value.entries)) != ""
    requires lib.literalEval(StrObj(lib.repr(DictObj(value.entries)))) == Ok(DictObj(value.entries))
    ensures ToPython(lib, GetPrepValue(lib, value)) == Ok(DictObj(value.entries))
  {
  }

  /** None is written as None and read back as the empty dict. */
  lemma NoneReadsBackEmpty(lib: Lib)
    ensures GetPrepValue(lib, NoneObj) == NoneObj
    ensures ToPython(lib, GetPrepValue(lib, NoneObj)) == Ok(DictObj([]))
  {
  }
}
