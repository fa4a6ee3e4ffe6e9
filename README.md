# qmpy typed-column codecs, in Dafny

This project models the typed-column layer of qmpy's database package
(`qmpy/db/custom.py`). The layer stores non-scalar Python values in single
text columns. Each field class decodes a column when it is read
(`from_db_value`, `to_python`) and encodes it when it is written
(`get_prep_value`):

- **TagField** joins a list of tags with a delimiter (`"|"` by default) and
  splits the text on read.
- **NumpyArrayField** pickles a list or an ndarray (protocol 0, kept as
  Latin-1 text) and unpickles it on read.
- **DictField** stores `str(dict)`. On read it tries `ast.literal_eval`
  first and falls back to `yaml.load`.
- **JSONField** stores `json.dumps(value)` and parses it with `json.loads`.
- **DictModel** is a row whose `data` column is a dict. It offers item
  get, set and delete, plus `keys`, `values` and `items`, all on `data`.

Files:

- `python.dfy` (module `Python`) gives the Python values the fields branch on.
  - `Obj` holds None, bool, int, str, list, dict, defaultdict, ndarray and
    class objects.
  - `Truth` is `bool()`, `ToStr` is `str()` and `Iterate` is iteration.
  - It also has the Latin-1 conversion and the exceptions raised, as
    `Result`.
  - Every foreign call except `np.array` is a field of the record `Lib`.
    `np.array(x)` is the constructor `ArrayObj(x)` (see "## Left out"). The
    `Lib` fields are pickle, `str()` of a non-string, `ast.literal_eval`,
    `yaml.load`, `json`, and numpy's `bool`, `iter` and `tolist`. Each codec takes a `Lib`, and these
    calls stay uninterpreted.
  - "The parser is not called" is stated as independence. The result stays
    the same when that field of `Lib` is replaced by any other function.
- `tag_field.dfy` (module `TagField`) models Python's `str.split(sep)` and
  `sep.join`, the three TagField methods, and their round-trip laws.
- `numpy_array_field.dfy`, `dict_field.dfy` and `json_field.dfy` model the
  other three fields.
- `pydict.dfy` (module `PyDict`) models Python's dict as an
  insertion-ordered list of entries with distinct keys. It has assignment,
  deletion and lookup, and `ToMap` is the mapping the list denotes.
- `dict_model.dfy` (module `Models`) has the class `DictModel`. Its methods
  update the field `data` in place. `Session` replays a short client session
  against the contracts: set a key, read the items, delete a key, then get
  the deleted key and receive KeyError, then use a list as a key and
  receive TypeError.

Behaviour worth knowing:

- DictField falls back from `ast.literal_eval` to `yaml.load` on any
  exception, since the `except:` is bare.
- NumpyArrayField stores the pickle of the value, not a text rendering of
  the numbers.
- JSONField's `from_db_value` hands any truthy value, not only text, to
  `json.loads`.
- Absent input to TagField, NumpyArrayField and DictField yields an empty
  value, never an error.

## Model

| member | source | states |
|---|---|---|
| `Python.Latin1Encode` | qmpy/db/custom.py:44 | `bytes(s, "latin-1")` succeeds exactly when every character is at most U+00FF, and then gives one byte per character with the same code; otherwise it raises UnicodeEncodeError |
| `Python.Latin1Decode` | qmpy/db/custom.py:58 | `str(b, "latin-1")` is total and gives one character per byte with the same code |
| `Python.Latin1RoundTrip` | qmpy/db/custom.py:54-60 | encoding the Latin-1 text of any bytes gives the same bytes back, so the stored pickle text decodes to the exact pickle bytes |
| `Python.Latin1TextRoundTrip` | qmpy/db/custom.py:44 | decoding the encoding of Latin-1 text gives the text back |
| `Python.Truth` | qmpy/db/custom.py:18 | `not value`: only an array can make `bool()` raise, and numpy decides there. None is false, text is true exactly when non-empty, and a list, dict or defaultdict is true exactly when it has items |
| `Python.ToStr` | qmpy/db/custom.py:44 | `str(value)` of text is that text. Any other value gets its `str()` form from `Lib` |
| `Python.Iterate` | qmpy/db/custom.py:32 | iterating a list gives its items, text gives its one-character strings, and a dict or defaultdict gives its keys in order. An array gives numpy's rows or its exception. None, bools, ints and classes raise TypeError |
| `TagField.Join` | qmpy/db/custom.py:32 | `d.join(parts)` of no parts is "". Otherwise it starts with the first part, and its length is the parts' total length plus one delimiter for each neighbouring pair |
| `TagField.Split` | qmpy/db/custom.py:20 | `str.split` with a non-empty separator always gives at least one piece |
| `TagField.SplitText` | qmpy/db/custom.py:20 | `value.split(delimiter)` gives a non-empty list of strings whose join is the text. A non-string raises AttributeError and an empty delimiter raises ValueError |
| `TagField.FromDbValue` | qmpy/db/custom.py:17-20 | None and "" read as the empty list; non-empty text is split; every successful result is a list of strings |
| `TagField.ToPython` | qmpy/db/custom.py:22-29 | a list is returned unchanged; anything else is read as `from_db_value` reads it |
| `TagField.GetPrepValue` | qmpy/db/custom.py:31-32 | a list of strings is stored as their join; a list with a non-string item, or None, raises TypeError; a successful result is text |
| `TagField.JoinSplit` | qmpy/db/custom.py:17-32 | for every text and non-empty delimiter, joining the split pieces gives the text back |
| `TagField.SplitAfterTag` | qmpy/db/custom.py:20-32 | a leading tag sharing no character with the delimiter is cut off exactly at the delimiter after it |
| `TagField.SplitJoin` | qmpy/db/custom.py:20-32 | splitting the join of a non-empty tag list gives the tags back when no tag shares a character with the delimiter |
| `TagField.SplitCount` | qmpy/db/custom.py:20 | with a one-character delimiter, the number of pieces is the number of delimiter characters plus one |
| `TagField.SplitPiecesApart` | qmpy/db/custom.py:20 | with a one-character delimiter, no piece contains the delimiter |
| `TagField.MultiCharDelimiterCounterexample` | qmpy/db/custom.py:13-32 | with a two-character delimiter of two bars, two tags that do not contain it (the first ending in a bar) are written and read back as different tags |
| `TagField.StoredTextRoundTrip` | qmpy/db/custom.py:17-32 | reading any stored text and writing the result back reproduces the text, "" included |
| `TagField.EncodeIdempotent` | qmpy/db/custom.py:17-32 | re-encoding what was read from an encoding reproduces that encoding |
| `TagField.TagListRoundTrip` | qmpy/db/custom.py:17-32 | writing then reading a tag list gives it back when it is not [""] and no tag shares a character with the delimiter |
| `TagField.EmptyTagLost` | qmpy/db/custom.py:17-32 | [""] is written as "" and "" is read as [] |
| `TagField.DelimiterInTagSplits` | qmpy/db/custom.py:13-32 | a single tag holding the default delimiter between "a" and "b" is written as itself and read back as the two tags "a" and "b" |
| `NumpyArrayField.Unpickle` | qmpy/db/custom.py:44 | the unpickled value is wrapped as an array. Text outside Latin-1 raises UnicodeEncodeError before pickle is reached, and otherwise pickle sees exactly the Latin-1 bytes of the text. When `pickle.loads` raises, its exception is passed on |
| `NumpyArrayField.FromDbValue` | qmpy/db/custom.py:41-44 | None and "" read as the empty array; non-empty text is unpickled; every successful result is an array |
| `NumpyArrayField.ToPython` | qmpy/db/custom.py:46-54 | as written: an array is returned unchanged, other non-lists are read as `from_db_value` reads them, every result is an array |
| `NumpyArrayField.ToPythonIntended` | qmpy/db/custom.py:46-54 | the same dispatch with `np.array(value)` for a list |
| `NumpyArrayField.Pickled` | qmpy/db/custom.py:58 | it succeeds exactly when `pickle.dumps` does, and then the text's Latin-1 bytes are exactly the pickle. Otherwise it raises pickle's exception |
| `NumpyArrayField.GetPrepValue` | qmpy/db/custom.py:56-62 | anything but a list or an array raises TypeError. A list is stored as its pickle text, and an array as the pickle text of its `tolist()`, with pickle's exception passed on |
| `NumpyArrayField.EmptyTextSkipsUnpickler` | qmpy/db/custom.py:41-43 | None and "" give the empty array whatever the unpickler does |
| `NumpyArrayField.ListRoundTrip` | qmpy/db/custom.py:41-58 | writing then reading a list gives the array of that list, provided pickle round-trips it and its output is non-empty |
| `NumpyArrayField.ArrayRoundTrip` | qmpy/db/custom.py:41-60 | writing then reading an array gives the array of its `tolist()`, under the same proviso |
| `NumpyArrayField.ToPythonLosesListContents` | qmpy/db/custom.py:47-50 | as written, every list gives the same array, the one built from the class `list` |
| `NumpyArrayField.ToPythonIntendedKeepsList` | qmpy/db/custom.py:47-50 | the intended version gives the array of the list, and different lists give different arrays |
| `DictField.ToPython` | qmpy/db/custom.py:71-90 | serves both `from_db_value` and `to_python`. None and "" read as {}, and a dict is returned unchanged. A defaultdict is returned unchanged too, unless it is empty, which reads as {} |
| `DictField.GetPrepValue` | qmpy/db/custom.py:92-99 | the result is None exactly for None and is text otherwise. A defaultdict is stored as the `str()` of the plain dict with its entries |
| `DictField.DictsSkipParsers` | qmpy/db/custom.py:71-90 | for falsy input and dicts, neither parser affects the result, which is always a dict |
| `DictField.StrictParserFirst` | qmpy/db/custom.py:76-79 | when `literal_eval` succeeds, its result is the answer and the YAML loader is irrelevant |
| `DictField.YamlFallback` | qmpy/db/custom.py:76-79 | when `literal_eval` raises, whichever exception it raises, the answer is the YAML loader's |
| `DictField.DefaultDictStoredAsDict` | qmpy/db/custom.py:96-99 | a defaultdict and the plain dict with the same entries are stored as the same text |
| `DictField.DictRoundTrip` | qmpy/db/custom.py:71-99 | a dict or defaultdict that is written and read back becomes the plain dict with the same entries, when `literal_eval` inverts `str()` on it |
| `DictField.NoneReadsBackEmpty` | qmpy/db/custom.py:71-99 | None is written as None and read back as {} |
| `JSONField.FromDbValue` | qmpy/db/custom.py:112-115 | None and "" are returned unchanged without parsing, and non-empty text goes to `json.loads` |
| `JSONField.ToPython` | qmpy/db/custom.py:117-122 | falsy values and non-strings are returned unchanged, and only non-empty text is parsed |
| `JSONField.GetPrepValue` | qmpy/db/custom.py:124-126 | it succeeds exactly when `json.dumps` does, gives that text, and otherwise raises `json.dumps`'s exception |
| `JSONField.OnlyTextIsParsed` | qmpy/db/custom.py:117-122 | apart from non-empty text, `to_python` gives the same result whatever `json.loads` does |
| `JSONField.AbsentPassesThrough` | qmpy/db/custom.py:112-122 | None and "" read back as themselves, not as an empty container |
| `JSONField.RoundTrip` | qmpy/db/custom.py:112-126 | writing then reading a value gives it back when `json.loads` inverts `json.dumps` on it |
| `PyDict.Find` | qmpy/db/custom.py:137 | the position found for a present key holds that key, and no earlier entry does |
| `PyDict.Set` | qmpy/db/custom.py:140 | the new entry is in the dict. The keys keep their order, and a key that was missing is appended last |
| `PyDict.Delete` | qmpy/db/custom.py:143 | for a present key, exactly the first entry holding it is cut out and the others keep their order. A missing key leaves the dict as it is |
| `PyDict.ToMapKeys` | qmpy/db/custom.py:145-146 | the keys of the mapping are exactly the keys listed in the dict |
| `PyDict.ToMapAt` | qmpy/db/custom.py:148-152 | each entry of a dict with distinct keys is the mapping's value at that key |
| `PyDict.SetSpec` | qmpy/db/custom.py:139-140 | assignment updates the mapping at the key only and keeps the keys distinct. Existing keys keep their order, and a new key is appended |
| `PyDict.DeleteSpec` | qmpy/db/custom.py:142-143 | deleting a present key removes exactly its entry, keeps the others in order, and removes the key from the mapping |
| `PyDict.FindSpec` | qmpy/db/custom.py:136-137 | the entry found for a present key holds the mapping's value there |
| `Models.DictModel.constructor` | qmpy/db/custom.py:129-130 | a row is built around a dict whose keys are distinct and hashable |
| `Models.DictModel.GetItem` | qmpy/db/custom.py:136-137 | an unhashable key (list, dict, defaultdict, array) raises TypeError. Otherwise it returns the value held at the key, or raises KeyError when the key is missing |
| `Models.DictModel.SetItem` | qmpy/db/custom.py:139-140 | an unhashable key raises TypeError and leaves `data` unchanged. Otherwise the key maps to the value afterwards and every other key is unchanged. The key order is kept, with a new key last |
| `Models.DictModel.DelItem` | qmpy/db/custom.py:142-143 | an unhashable key raises TypeError and a missing key raises KeyError, and both leave `data` unchanged. Otherwise the key's entry is removed and nothing else changes |
| `Models.DictModel.Keys` | qmpy/db/custom.py:145-146 | every key appears once, in insertion order, one per entry, and these are exactly the keys of the mapping |
| `Models.DictModel.Values` | qmpy/db/custom.py:148-149 | one value per entry, in key order, each the mapping's value at that key |
| `Models.DictModel.Items` | qmpy/db/custom.py:151-152 | one pair per entry, in key order. Each pair agrees with the mapping, and every key of the mapping appears with its value |

## Findings

| source | as written | input that shows it | evidently intended | confidence | as-written member | corrected member |
|---|---|---|---|---|---|---|
| qmpy/db/custom.py:47-48 | `to_python` builds `np.array` from the builtin class `list`, not from the value | any list, for example [1, 2]: the result is a 0-d object array that holds the class `list`, and the numbers are lost | `np.array(value)` | high; not executed | `NumpyArrayField.ToPythonLosesListContents` | `NumpyArrayField.ToPythonIntendedKeepsList` |

## Left out

- `sync_database` (qmpy/db/custom.py:155-197) is left out because it is all I/O: terminal prompts, an HTTP download, file writes and progress output.
- `dump_cif.py` is not part of this model. It is a one-off export script built from library calls.
- The formats behind the foreign calls are uninterpreted fields of `Lib`, and their round trips appear only as hypotheses of the round-trip lemmas. This covers pickle protocol 0, Python's `str()` of a dict, `ast.literal_eval`, `yaml.load`, and JSON text.
- numpy is modelled only symbolically: `ArrayObj(x)` stands for `np.array(x)`. Being a datatype constructor, it is total and injective, whereas numpy can raise on ragged input and can build equal arrays from different sources. Its dtypes, shapes and element conversion are not modelled, and `bool`, iteration and `tolist()` on arrays are `Lib` calls. `tolist()` is taken never to raise.
- Floating-point numbers are not among the value kinds.
- Tuples, sets, bytes and user-defined objects are also missing. Class objects are always truthy.
- Dict keys are compared structurally. Python's cross-type equality, such as `1 == True`, is not modelled. Hashability is decided by kind alone, because tuples, which are hashable only when their items are, are not among the value kinds.
- `DictModel` assumes `data` holds a plain dict. A defaultdict's insertion on a missing key is not modelled, nor are the list or string indexing that `literal_eval` output of another kind would give.
- TagField's delimiter is a string. `split(None)`, which splits on whitespace, is not modelled.
- The Django plumbing is left out: `expression`/`connection`/`context`, `value_to_string`, `max_length`/`primary_key` and `Meta.abstract`. So is the debug `print` in `JSONField.get_prep_value`.
- `DictField.from_db_value` has no member of its own because its body is the same as `to_python`'s. `DictField.ToPython` models both.
