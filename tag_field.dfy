/** TagField: a list of tags stored in one text column, joined with a
    configurable delimiter ("|" by default). */
module TagField {
  import opened Python

  const DefaultDelimiter: string := "|"

  /** Python's `s.split(d)` for a non-empty separator: cut at every
      occurrence of `d`, scanning left to right without overlap. */
  function Split(s: string, d: string): (parts: seq<string>)
    requires d != ""
    ensures |parts| >= 1
    decreases |s|
  {
    if |s| < |d| then [s]
    else if s[..|d|] == d then [""] + Split(s[|d|..], d)
    else
      var rest := Split(s[1..], d);
      [[s[0]] + rest[0]] + rest[1..]
  }

  /** The total length of the parts. */
  function TotalLength(parts: seq<string>): nat
  {
    if parts == [] then 0 else |parts[0]| + TotalLength(parts[1..])
  }

  /** Python's `d.join(parts)`: the parts in order, with one copy of the
      delimiter between each neighbouring pair. */
  function Join(parts: seq<string>, d: string): (s: string)
    ensures parts != [] ==> parts[0] <= s
    ensures parts != [] ==> |s| == TotalLength(parts) + (|parts| - 1) * |d|
    ensures parts == [] ==> s == ""
  {
    if |parts| == 0 then ""
    else if |parts| == 1 then parts[0]
    else parts[0] + d + Join(parts[1..], d)
  }

  /** No character of `t` occurs in `d`. */
  predicate Apart(t: string, d: string)
  {
    forall i :: 0 <= i < |t| ==> t[i] !in d
  }

  function StrObjs(ss: seq<string>): (objs: seq<Obj>)
    ensures |objs| == |ss| && forall i :: 0 <= i < |ss| ==> objs[i] == StrObj(ss[i])
  {
    seq(|ss|, i requires 0 <= i < |ss| => StrObj(ss[i]))
  }

  function Texts(objs: seq<Obj>): (ss: seq<string>)
    requires forall i :: 0 <= i < |objs| ==> objs[i].StrObj?
    ensures |ss| == |objs| && forall i :: 0 <= i < |objs| ==> ss[i] == objs[i].s
  {
    seq(|objs|, i requires 0 <= i < |objs| && objs[i].StrObj? => objs[i].s)
  }

  /** `value.split(self.delimiter)`. */
  function SplitText(value: Obj, delimiter: string): (r: Result<Obj>)
    ensures r.Ok? <==> value.StrObj? && delimiter != ""
    ensures !value.StrObj? ==> r == Raise(AttributeError)
    ensures value.StrObj? && delimiter == "" ==> r == Raise(ValueError)
    ensures r.Ok? ==> r.value.ListObj? && r.value.items != []
                      && (forall i :: 0 <= i < |r.value.items| ==> r.value.items[i].StrObj?)
                      && Join(Texts(r.value.items), delimiter) == value.s
  {
    if !value.StrObj? then Raise(AttributeError)   // no split method
    else if delimiter == "" then Raise(ValueError)  // empty separator
    else
      var parts := Split(value.s, delimiter);
      JoinSplit(value.s, delimiter);
      assert Texts(StrObjs(parts)) == parts;
      Ok(ListObj(StrObjs(parts)))
  }

  /** `from_db_value`: falsy text is the empty tag list, other text is split. */
  function FromDbValue(lib: Lib, delimiter: string, value: Obj): (r: Result<Obj>)
    ensures value == NoneObj || value == StrObj("") ==> r == Ok(ListObj([]))
    ensures value.StrObj? && value.s != "" ==> r == SplitText(value, delimiter)
    ensures r.Ok? ==> r.value.ListObj? && forall i :: 0 <= i < |r.value.items| ==> r.value.items[i].StrObj?
  {
    match Truth(lib, value)
    case Raise(e) => Raise(e)
    case Ok(truthy) => if !truthy then Ok(ListObj([])) else SplitText(value, delimiter)
  }

  /** `to_python`: a list is already decoded; anything else is read as
      `from_db_value` reads it. */
  function ToPython(lib: Lib, delimiter: string, value: Obj): (r: Result<Obj>)
    ensures value.ListObj? ==> r == Ok(value)
    ensures !value.ListObj? ==> r == FromDbValue(lib, delimiter, value)
  {
    if value.ListObj? then Ok(value) else FromDbValue(lib, delimiter, value)
  }

  /** `get_prep_value`: `self.delimiter.join(value)`, which iterates over
      `value` and raises TypeError unless every item is a string. */
  function GetPrepValue(lib: Lib, delimiter: string, value: Obj): (r: Result<Obj>)
    ensures value.ListObj? && (forall i :: 0 <= i < |value.items| ==> value.items[i].StrObj?) ==>
              r == Ok(StrObj(Join(Texts(value.items), delimiter)))
    ensures value.ListObj? && (exists i :: 0 <= i < |value.items| && !value.items[i].StrObj?) ==>
              r == Raise(TypeError)
    ensures value == NoneObj ==> r == Raise(TypeError)
    ensures r.Ok? ==> r.value.StrObj?
  {
    match Iterate(lib, value)
    case Raise(e) => Raise(e)
    case Ok(items) =>
      if forall i :: 0 <= i < |items| ==> items[i].StrObj? then Ok(StrObj(Join(Texts(items), delimiter)))
      else Raise(TypeError)
  }

  // ---------------------------------------------------------------------
  // Laws of Split and Join

  /** Joining `[a] + rest` puts the delimiter between `a` and the rest. */
  lemma JoinCons(a: string, rest: seq<string>, d: string)
    ensures Join([a] + rest, d) == if rest == [] then a else a + d + Join(rest, d)
  {
  }

  /** Prefixing a character to the first part prefixes it to the joined text. */
  lemma JoinPrepend(c: char, parts: seq<string>, d: string)
    requires parts != []
    ensures Join([[c] + parts[0]] + parts[1..], d) == [c] + Join(parts, d)
  {
  }

  /** Split-then-join is the identity on every text. */
  lemma {:induction false} JoinSplit(s: string, d: string)
    requires d != ""
    ensures Join(Split(s, d), d) == s
    decreases |s|
  {
    if |s| < |d| {
    } else if s[..|d|] == d {
      var rest := Split(s[|d|..], d);
      JoinSplit(s[|d|..], d);
      JoinCons("", rest, d);
      calc {
        Join(Split(s, d), d);
        Join([""] + rest, d);
        "" + d + Join(rest, d);
        s[..|d|] + s[|d|..];
        s;
      }
    } else {
      var rest := Split(s[1..], d);
      JoinSplit(s[1..], d);
      JoinPrepend(s[0], rest, d);
      assert s == [s[0]] + s[1..];
    }
  }

  /** A text sharing no character with the delimiter is a single piece. */
  lemma {:induction false} SplitApart(t: string, d: string)
    requires d != "" && Apart(t, d)
    ensures Split(t, d) == [t]
    decreases |t|
  {
    if |t| >= |d| {
      assert t[..|d|][0] != d[0];
      SplitApart(t[1..], d);
      assert [t[0]] + t[1..] == t;
    }
  }

  /** A leading tag that shares no character with the delimiter is cut off
      exactly at the delimiter that follows it. */
  lemma {:induction false} SplitAfterTag(t: string, d: string, u: string)
    requires d != "" && Apart(t, d)
    ensures Split(t + d + u, d) == [t] + Split(u, d)
    decreases |t|
  {
    var s := t + d + u;
    if t == "" {
      assert s[..|d|] == d && s[|d|..] == u;
    } else {
      assert s[..|d|][0] == t[0] && t[0] !in d;
      assert s[1..] == t[1..] + d + u;
      SplitAfterTag(t[1..], d, u);
      assert [t[0]] + t[1..] == t;
    }
  }

  /** Join-then-split gives the tags back when no tag shares a character
      with the delimiter. */
  lemma {:induction false} SplitJoin(tags: seq<string>, d: string)
    requires d != "" && tags != []
    requires forall i :: 0 <= i < |tags| ==> Apart(tags[i], d)
    ensures Split(Join(tags, d), d) == tags
    decreases |tags|
  {
    if |tags| == 1 {
      SplitApart(tags[0], d);
    } else {
      SplitAfterTag(tags[0], d, Join(tags[1..], d));
      SplitJoin(tags[1..], d);
      assert [tags[0]] + tags[1..] == tags;
    }
  }

  /** With a one-character delimiter, the number of pieces is the number of
      delimiter characters plus one. */
  lemma {:induction false} SplitCount(s: string, d: string)
    requires |d| == 1
    ensures |Split(s, d)| == multiset(s)[d[0]] + 1
    decreases |s|
  {
    if |s| >= 1 {
      assert s == [s[0]] + s[1..];
      assert multiset(s) == multiset{s[0]} + multiset(s[1..]);
      assert s[..1] == d <==> s[0] == d[0];
      SplitCount(s[1..], d);
    }
  }

  /** With a one-character delimiter, no piece contains the delimiter. */
  lemma {:induction false} SplitPiecesApart(s: string, d: string)
    requires |d| == 1
    ensures forall i :: 0 <= i < |Split(s, d)| ==> Apart(Split(s, d)[i], d)
    decreases |s|
  {
    if |s| >= 1 {
      SplitPiecesApart(s[1..], d);
      if s[..1] != d {
        assert s[0] != d[0];
        var rest := Split(s[1..], d);
        assert Split(s, d) == [[s[0]] + rest[0]] + rest[1..];
      }
    }
  }

  /** A delimiter of several characters can corrupt tags that do not
      contain it: the last "|" of the first tag pairs with the first "|" of
      the separator. */
  lemma MultiCharDelimiterCounterexample()
    ensures Join(["a|", "b"], "||") == "a|||b"
    ensures Split("a|||b", "||") == ["a", "|b"]
  {
    var d := "||";
    assert Split("b", d) == ["b"];
    var s1 := "|b";
    assert |s1| == 2 && s1[0] == '|' && s1[1] == 'b' && s1[..2] != d && s1[1..] == "b";
    assert [s1[0]] + "b" == s1;
    assert Split(s1, d) == [[s1[0]] + Split(s1[1..], d)[0]] + Split(s1[1..], d)[1..];
    assert Split(s1, d) == ["|b"];
    var s2 := "|||b";
    assert |s2| == 4 && s2[..2] == d && s2[2..] == s1;
    assert Split(s2, d) == [""] + Split(s1, d);
    assert Split(s2, d) == ["", "|b"];
    var s3 := "a|||b";
    assert |s3| == 5 && s3[0] == 'a' && s3[..2] != d && s3[1..] == s2;
    assert Split(s3, d) == [[s3[0]] + Split(s2, d)[0]] + Split(s2, d)[1..];
    assert [s3[0]] + "" == "a";
  }

  // ---------------------------------------------------------------------
  // Laws of the codec

  /** The stored text survives a read followed by a write. */
  lemma StoredTextRoundTrip(lib: Lib, d: string, s: string)
    requires d != ""
    ensures FromDbValue(lib, d, StrObj(s)).Ok?
    ensures GetPrepValue(lib, d, FromDbValue(lib, d, StrObj(s)).value) == Ok(StrObj(s))
  {
  }

  /** Writing is idempotent through a read: re-encoding what was read back
      reproduces the stored text. */
  lemma EncodeIdempotent(lib: Lib, d: string, v: Obj)
    requires d != ""
    requires GetPrepValue(lib, d, v).Ok?
    ensures var text := GetPrepValue(lib, d, v).value;
            GetPrepValue(lib, d, FromDbValue(lib, d, text).value) == Ok(text)
  {
  }

  /** A tag list survives a write followed by a read when no tag shares a
      character with the delimiter, unless it is the single empty tag. */
  lemma TagListRoundTrip(lib: Lib, d: string, tags: seq<string>)
    requires d != "" && tags != [""]
    requires forall i :: 0 <= i < |tags| ==> Apart(tags[i], d)
    ensures GetPrepValue(lib, d, ListObj(StrObjs(tags))).Ok?
    ensures FromDbValue(lib, d, GetPrepValue(lib, d, ListObj(StrObjs(tags))).value) == Ok(ListObj(StrObjs(tags)))
  {
    assert Texts(StrObjs(tags)) == tags;
    if tags != [] {
      SplitJoin(tags, d);
      assert Join(tags, d) != "" by {
        if |tags| == 1 { assert tags[0] != ""; }
      }
    }
  }

  /** The list holding one empty tag is written as "" and read back as []. */
  lemma EmptyTagLost(lib: Lib, d: string)
    ensures GetPrepValue(lib, d, ListObj([StrObj("")])) == Ok(StrObj(""))
    ensures FromDbValue(lib, d, StrObj("")) == Ok(ListObj([]))
  {
  }

  /** A tag holding the default delimiter comes back as two tags. */
  lemma DelimiterInTagSplits(lib: Lib)
    ensures GetPrepValue(lib, DefaultDelimiter, ListObj([StrObj("a|b")])) == Ok(StrObj("a|b"))
    ensures FromDbValue(lib, DefaultDelimiter, StrObj("a|b")) == Ok(ListObj([StrObj("a"), StrObj("b")]))
  {
    var d := DefaultDelimiter;
    assert Texts([StrObj("a|b")]) == ["a|b"];
    var s0 := "b";
    assert |s0| == 1 && s0[0] == 'b' && s0[..1] != d && s0[1..] == "";
    assert Split(s0, d) == [[s0[0]] + Split("", d)[0]] + Split("", d)[1..];
    assert [s0[0]] + "" == s0;
    assert Split(s0, d) == ["b"];
    var s1 := "|b";
    assert |s1| == 2 && s1[..1] == d && s1[1..] == "b";
    assert Split(s1, d) == [""] + Split("b", d);
    var s2 := "a|b";
    assert |s2| == 3 && s2[0] == 'a' && s2[..1] != d && s2[1..] == s1;
    assert Split(s2, d) == [[s2[0]] + Split(s1, d)[0]] + Split(s1, d)[1..];
    assert [s2[0]] + "" == "a";
    assert Split(s2, d) == ["a", "b"];
    assert StrObjs(["a", "b"]) == [StrObj("a"), StrObj("b")];
    assert SplitText(StrObj(s2), d) == Ok(ListObj(StrObjs(Split(s2, d))));
  }
}
