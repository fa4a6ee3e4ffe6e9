/** DictModel: a stored row whose `data` column holds a dict, used as a
    dict itself. The operations change `data` in place. */
module Models {
  import opened Python
  import PyDict

  class DictModel {
    /** The decoded `data` column: a Python dict, in insertion order. */
    var data: seq<(Obj, Obj)>

    /** A Python dict: distinct keys, every one of them hashable. */
    ghost predicate Valid()
      reads this
    {
      PyDict.UniqueKeys(data) && forall k :: k in PyDict.Keys(data) ==> Hashable(k)
    }

    /** The mapping `data` denotes. */
    ghost function Contents(): map<Obj, Obj>
      reads this
    {
      PyDict.ToMap(data)
    }

    constructor (data: seq<(Obj, Obj)>)
      requires PyDict.UniqueKeys(data) && forall k :: k in PyDict.Keys(data) ==> Hashable(k)
      ensures Valid() && this.data == data
    {
      this.data := data;
    }

    /** `self[key]`: the value held at `key`; KeyError when it is missing,
        TypeError when it cannot be hashed. */
    method GetItem(key: Obj) returns (r: Result<Obj>)
      requires Valid()
      ensures !Hashable(key) ==> r == Raise(TypeError)
      ensures Hashable(key) && key in Contents() ==> r == Ok(Contents()[key])
      ensures Hashable(key) && key !in Contents() ==> r == Raise(KeyError)
    {
      PyDict.ToMapKeys(data);
      if !Hashable(key) {
        r := Raise(TypeError);
      } else if key in PyDict.Keys(data) {
        PyDict.FindSpec(data, key);
        r := Ok(data[PyDict.Find(data, key)].1);
      } else {
        r := Raise(KeyError);
      }
    }

    /** `self[key] = value`: only `key` changes; an existing key keeps its
        position and a new key is appended. An unhashable key raises
        TypeError and changes nothing. */
    method SetItem(key: Obj, value: Obj) returns (r: Result<()>)
      requires Valid()
      modifies this
      ensures Valid()
      ensures !Hashable(key) ==> r == Raise(TypeError) && data == old(data)
      ensures Hashable(key) ==> r == Ok(()) && Contents() == old(Contents())[key := value]
      ensures Hashable(key) ==> PyDict.Keys(data) == if key in PyDict.Keys(old(data)) then PyDict.Keys(old(data))
                                                     else PyDict.Keys(old(data)) + [key]
    {
      if !Hashable(key) {
        r := Raise(TypeError);
      } else {
        PyDict.SetSpec(data, key, value);
        data := PyDict.Set(data, key, value);
        r := Ok(());
      }
    }

    /** `del self[key]`: removes exactly the entry of `key`, or raises
        KeyError (missing key) or TypeError (unhashable key) and changes
        nothing. */
    method DelItem(key: Obj) returns (r: Result<()>)
      requires Valid()
      modifies this
      ensures Valid()
      ensures !Hashable(key) ==> r == Raise(TypeError) && data == old(data)
      ensures Hashable(key) && key in old(Contents()) ==> r == Ok(()) && Contents() == old(Contents()) - {key}
      ensures Hashable(key) && key in old(Contents()) ==>
                exists i :: 0 <= i < |old(data)| && old(data)[i].0 == key && data == old(data)[..i] + old(data)[i + 1..]
      ensures Hashable(key) && key !in old(Contents()) ==> r == Raise(KeyError) && data == old(data)
    {
      PyDict.ToMapKeys(data);
      if !Hashable(key) {
        r := Raise(TypeError);
      } else if key in PyDict.Keys(data) {
        PyDict.DeleteSpec(data, key);
        ghost var i := PyDict.Find(data, key);
        ghost var before := data;
        data := PyDict.Delete(data, key);
        PyDict.ToMapKeys(data);
        assert forall k :: k in PyDict.Keys(data) ==> k in PyDict.Keys(before) by {
          forall k | k in PyDict.Keys(data) ensures k in PyDict.Keys(before) {
            assert k in PyDict.ToMap(data);
            assert k in PyDict.ToMap(before);
          }
        }
        r := Ok(());
      } else {
        r := Raise(KeyError);
      }
    }

    /** `self.keys()`: every key once, in insertion order. */
    method Keys() returns (ks: seq<Obj>)
      requires Valid()
      ensures |ks| == |data| && PyDict.Distinct(ks)
      ensures forall i :: 0 <= i < |ks| ==> ks[i] == data[i].0
      ensures forall k :: k in ks <==> k in Contents()
    {
      ks := PyDict.Keys(data);
      PyDict.ToMapKeys(data);
    }

    /** `self.values()`: the value of each key, in key order. */
    method Values() returns (vs: seq<Obj>)
      requires Valid()
      ensures |vs| == |data|
      ensures forall i :: 0 <= i < |vs| ==> data[i].0 in Contents() && vs[i] == Contents()[data[i].0]
    {
      vs := PyDict.Values(data);
      forall i | 0 <= i < |vs|
        ensures data[i].0 in Contents() && vs[i] == Contents()[data[i].0]
      {
        PyDict.ToMapAt(data, i);
      }
    }

    /** `self.items()`: the (key, value) pairs, in key order. */
    method Items() returns (its: seq<(Obj, Obj)>)
      requires Valid()
      ensures |its| == |data|
      ensures forall i :: 0 <= i < |its| ==> its[i].0 == data[i].0
      ensures forall i :: 0 <= i < |its| ==> its[i].0 in Contents() && its[i].1 == Contents()[its[i].0]
      ensures forall k :: k in Contents() ==> exists i :: 0 <= i < |its| && its[i] == (k, Contents()[k])
    {
      its := data;
      forall i | 0 <= i < |its|
        ensures its[i].0 in Contents() && its[i].1 == Contents()[its[i].0]
      {
        PyDict.ToMapAt(data, i);
      }
      PyDict.ToMapKeys(data);
      forall k | k in Contents()
        ensures exists i :: 0 <= i < |its| && its[i] == (k, Contents()[k])
      {
        assert k in PyDict.Keys(data);
        var i := PyDict.Find(data, k);
        PyDict.ToMapAt(data, i);
        assert its[i] == (k, Contents()[k]);
      }
    }
  }

  /** A client session: start with {"a": 1}, set "b", read the items back,
      delete "a", find "a" missing, and fail to use a list as a key. */
  method Session()
  {
    var a, b := StrObj("a"), StrObj("b");
    var m := new DictModel([(a, IntObj(1))]);
    assert PyDict.ToMap(m.data) == PyDict.ToMap(m.data[1..])[a := IntObj(1)];
    assert m.data[1..] == [];
    assert m.Contents() == map[a := IntObj(1)];
    var s := m.SetItem(b, IntObj(2));
    assert s == Ok(());
    assert m.Contents() == map[a := IntObj(1), b := IntObj(2)];
    var its := m.Items();
    assert |its| == 2;
    assert forall i :: 0 <= i < |its| ==> its[i] == (a, IntObj(1)) || its[i] == (b, IntObj(2));
    var r := m.DelItem(a);
    assert r == Ok(());
    var g := m.GetItem(a);
    assert g == Raise(KeyError);
    g := m.GetItem(b);
    assert g == Ok(IntObj(2));
    s := m.SetItem(ListObj([a]), IntObj(3));
    assert s == Raise(TypeError);
    g := m.GetItem(ListObj([a]));
    assert g == Raise(TypeError);
  }
}
