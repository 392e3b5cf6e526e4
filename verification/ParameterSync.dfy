/** The in-place synchronisation of a Python dictionary with a Teuchos parameter list, in raiseError mode. */
module ParameterSync {
  import opened Wrappers
  import opened ParameterValues

  class PyDictObject {
    var items: map<Name, PyValue>

    constructor (items: map<Name, PyValue>)
      ensures this.items == items
    {
      this.items := items;
    }
  }

  class ParameterList {
    var entries: map<Name, Param>

    constructor ()
      ensures entries == map[]
    {
      entries := map[];
    }
  }

  /** Undefined: a null pointer is dereferenced, because a nested dictionary could not be converted. */
  datatype Outcome = Ok | Failed | Undefined

  /** What getPythonParameter hands back: an object, a wrapper around a sublist, or a null pointer. */
  datatype Fetched = Object(v: PyValue) | Wrapper | Null

  function GetPythonParameter(plist: map<Name, Param>, name: Name): Fetched {
    if name !in plist then Object(PyNone)
    else if plist[name].SubList? then Wrapper
    else if ToPython(plist[name]).None? then Null
    else Object(ToPython(plist[name]).value)
  }

  /** Whatever happens, names outside `keys` are neither added, nor removed, nor changed. */
  ghost predicate OthersKept<V>(now: map<Name, V>, before: map<Name, V>, keys: set<Name>) {
    forall k :: k !in keys ==> Get(now, k) == Get(before, k)
  }

  lemma OneMoreChanged<V>(now: map<Name, V>, before: map<Name, V>, keys: set<Name>, name: Name, v: V)
    requires OthersKept(now, before, keys) && name in keys
    ensures OthersKept(now[name := v], before, keys)
  {
  }

  /** Items of `d` whose names are not in `todo` have been merged with the list `p`; the others are untouched. */
  ghost predicate PartlyMerged(now: map<Name, PyValue>, d: map<Name, PyValue>, p: map<Name, Param>, todo: set<Name>)
    requires forall k :: k in p && k !in todo ==> Supported(p[k])
  {
    && now.Keys == d.Keys + (p.Keys - todo)
    && forall k :: k in now ==> now[k] == if k in p && k !in todo then MergeEntry(Get(d, k), p[k]) else d[k]
  }

  lemma PartlyMergedStep(now: map<Name, PyValue>, d: map<Name, PyValue>, p: map<Name, Param>, todo: set<Name>, name: Name)
    requires forall k :: k in p && k !in todo ==> Supported(p[k])
    requires PartlyMerged(now, d, p, todo) && name in todo && todo <= p.Keys
    ensures Get(now, name) == Get(d, name)
    ensures Supported(p[name]) ==> PartlyMerged(now[name := MergeEntry(Get(d, name), p[name])], d, p, todo - {name})
  {
  }

  lemma FullyMerged(now: map<Name, PyValue>, d: map<Name, PyValue>, p: map<Name, Param>)
    requires AllSupported(p) && PartlyMerged(now, d, p, {})
    ensures now == Merge(d, p)
  {
  }

  /** Items of `d` whose names are not in `todo` have been stored in the list; the other entries are untouched. */
  ghost predicate PartlyStored(now: map<Name, Param>, before: map<Name, Param>, d: map<Name, PyValue>, todo: set<Name>)
    requires forall k :: k in d && k !in todo ==> Meets(Convertible, d[k])
  {
    && now.Keys == before.Keys + (d.Keys - todo)
    && forall k :: k in now ==> now[k] == if k in d && k !in todo then ToParamEntry(d[k]) else before[k]
  }

  lemma PartlyStoredStep(now: map<Name, Param>, before: map<Name, Param>, d: map<Name, PyValue>, todo: set<Name>, name: Name)
    requires name in todo && todo <= d.Keys && Meets(Convertible, d[name])
    requires forall k :: k in d && k !in todo ==> Meets(Convertible, d[k])
    requires PartlyStored(now, before, d, todo)
    ensures PartlyStored(now[name := ToParamEntry(d[name])], before, d, todo - {name})
  {
    hide Meets, ToParamEntry;
  }

  lemma FullyStored(now: map<Name, Param>, before: map<Name, Param>, d: map<Name, PyValue>)
    requires AllMeet(Convertible, d) && PartlyStored(now, before, d, {})
    ensures now == before + ToParams(d)
  {
    hide Meets, ToParamEntry;
  }

  method UpdatePyDictWithParameterList(dict: PyDictObject, plist: Param) returns (result: bool)
    requires plist.SubList?
    modifies dict
    ensures result <==> Supported(plist)
    ensures result ==> dict.items == Merge(old(dict.items), plist.entries)
    ensures OthersKept(dict.items, old(dict.items), plist.entries.Keys)
    decreases plist
  {
    result := true;
    var entries := plist.entries;
    var todo := entries.Keys;
    while todo != {}
      invariant todo <= entries.Keys
      invariant result <==> forall k :: k in entries && k !in todo ==> Supported(entries[k])
      invariant result ==> PartlyMerged(dict.items, old(dict.items), entries, todo)
      invariant OthersKept(dict.items, old(dict.items), entries.Keys)
      decreases |todo|
    {
      var name :| name in todo;
      var param := GetPythonParameter(entries, name);
      var value := Get(dict.items, name);
      if result {
        PartlyMergedStep(dict.items, old(dict.items), entries, todo, name);
      }
      match param {
        case Null =>
          return false;
        case Wrapper =>
          var nested := new PyDictObject(ItemsOf(value));
          if result {
            result := UpdatePyDictWithParameterList(nested, entries[name]);
          }
          dict.items := dict.items[name := PyDict(nested.items)];
        case Object(v) =>
          dict.items := dict.items[name := v];
      }
      todo := todo - {name};
    }
    if result {
      FullyMerged(dict.items, old(dict.items), entries);
    }
  }

  /** Stores one object under a name. */
  method SetPythonParameter(plist: ParameterList, name: Name, value: PyValue) returns (outcome: Outcome)
    modifies plist
    ensures outcome.Ok? <==> Meets(Convertible, value)
    ensures !outcome.Ok? ==> outcome == if value.PyDict? then Undefined else Failed
    ensures plist.entries == if outcome.Ok? then old(plist.entries)[name := ToParamEntry(value)] else old(plist.entries)
    decreases value, 2
  {
    if value.PyDict? {
      var sublist := PyDictToNewParameterList(value);
      if sublist == null {
        return Undefined;
      }
      assert ToParamEntry(value) == SubList(ToParams(value.items));
      plist.entries := plist.entries[name := SubList(sublist.entries)];
      outcome := Ok;
    } else {
      var p := ToParam(value);
      if p.None? {
        return Failed;
      }
      plist.entries := plist.entries[name := p.value];
      outcome := Ok;
    }
  }

  /** A new list with the dictionary's items, or a null pointer. */
  method PyDictToNewParameterList(dict: PyValue) returns (plist: ParameterList?)
    ensures plist != null <==> dict.PyDict? && AllMeet(Convertible, dict.items)
    ensures plist != null ==> fresh(plist) && plist.entries == ToParams(dict.items)
    decreases dict, 1
  {
    if !dict.PyDict? {
      return null;
    }
    var list := new ParameterList();
    var outcome := UpdateParameterListWithPyDict(dict, list);
    if !outcome.Ok? {
      return null;
    }
    assert map[] + ToParams(dict.items) == ToParams(dict.items);
    plist := list;
  }

  /** A new dictionary with the list's entries, or a null pointer. */
  method ParameterListToNewPyDict(plist: map<Name, Param>) returns (dict: PyDictObject?)
    ensures dict != null <==> AllSupported(plist)
    ensures dict != null ==> fresh(dict) && dict.items == Merge(map[], plist)
  {
    var items := new PyDictObject(map[]);
    var result := UpdatePyDictWithParameterList(items, SubList(plist));
    dict := if result then items else null;
  }

  method UpdateParameterListWithPyDict(dict: PyValue, plist: ParameterList) returns (outcome: Outcome)
    requires dict.PyDict?
    modifies plist
    ensures outcome.Ok? <==> AllMeet(Convertible, dict.items)
    ensures outcome.Ok? ==> plist.entries == old(plist.entries) + ToParams(dict.items)
    ensures OthersKept(plist.entries, old(plist.entries), dict.items.Keys)
    ensures outcome.Failed? ==> exists k :: k in dict.items && !dict.items[k].PyDict? && !Meets(Convertible, dict.items[k])
    ensures outcome.Undefined? ==> exists k :: k in dict.items && dict.items[k].PyDict? && !Meets(Convertible, dict.items[k])
    decreases dict, 0
  {
    hide Meets, ToParamEntry;
    var items := dict.items;
    var todo := items.Keys;
    assert PartlyStored(plist.entries, old(plist.entries), items, todo);
    hide PartlyStored, OthersKept;
    while todo != {}
      invariant todo <= items.Keys
      invariant forall k :: k in items && k !in todo ==> Meets(Convertible, items[k])
      invariant PartlyStored(plist.entries, old(plist.entries), items, todo)
      invariant OthersKept(plist.entries, old(plist.entries), items.Keys)
      decreases |todo|
    {
      var key :| key in todo;
      ghost var before := plist.entries;
      outcome := SetPythonParameter(plist, key, items[key]);
      if !outcome.Ok? {
        assert key in items && !Meets(Convertible, items[key]);
        return;
      }
      PartlyStoredStep(before, old(plist.entries), items, todo, key);
      OneMoreChanged(before, old(plist.entries), items.Keys, key, ToParamEntry(items[key]));
      todo := todo - {key};
    }
    FullyStored(plist.entries, old(plist.entries), items);
    outcome := Ok;
  }

  /** The list wins wherever both hold a value, nothing that only the dictionary holds is lost, and afterwards
      the two are equivalent iff everything that only the dictionary held can be stored without loss. */
  method SynchronizeParameters(dict: PyDictObject, plist: ParameterList) returns (outcome: Outcome)
    modifies dict, plist
    ensures outcome.Ok? <==> AllSupported(old(plist.entries)) && DictOnlyMeets(Convertible, old(dict.items), old(plist.entries))
    ensures outcome.Ok? ==>
              && dict.items == Merge(old(dict.items), old(plist.entries))
              && AllMeet(Convertible, dict.items) && plist.entries == ToParams(dict.items)
              && (Equivalent(dict.items, plist.entries) <==> DictOnlyMeets(Faithful, old(dict.items), old(plist.entries)))
    ensures !AllSupported(old(plist.entries)) ==> outcome == Failed && plist.entries == old(plist.entries)
    ensures OthersKept(dict.items, old(dict.items), old(plist.entries).Keys)
  {
    var result := UpdatePyDictWithParameterList(dict, SubList(plist.entries));
    if !result {
      return Failed;
    }
    MergeMeets(Convertible, old(dict.items), old(plist.entries));
    MergeMeets(Faithful, old(dict.items), old(plist.entries));
    outcome := UpdateParameterListWithPyDict(PyDict(dict.items), plist);
    if outcome.Ok? {
      StoredEquivalent(dict.items);
    }
  }

  /** Both tables have the same names and hold equal values at every depth. */
  method IsEquivalent(dict: PyValue, plist: Param) returns (equivalent: bool)
    requires plist.SubList?
    ensures equivalent <==> EquivalentEntry(dict, plist)
    decreases plist, 0
  {
    if !dict.PyDict? {
      return false;
    }
    var items, entries := dict.items, plist.entries;
    var todo := entries.Keys;
    while todo != {}
      invariant todo <= entries.Keys
      invariant forall k :: k in entries && k !in todo ==> k in items && EquivalentEntry(items[k], entries[k])
      decreases |todo|
    {
      var name :| name in todo;
      if name !in items {
        return false;
      }
      var same := EntryMatches(items[name], entries, name);
      if !same {
        return false;
      }
      todo := todo - {name};
    }
    todo := items.Keys;
    while todo != {}
      invariant todo <= items.Keys
      invariant forall k :: k in items && k !in todo ==> k in entries && EquivalentEntry(items[k], entries[k])
      decreases |todo|
    {
      var key :| key in todo;
      if key !in entries {
        return false;
      }
      var same := EntryMatches(items[key], entries, key);
      if !same {
        return false;
      }
      todo := todo - {key};
    }
    return true;
  }

  method EntryMatches(value: PyValue, entries: map<Name, Param>, name: Name) returns (same: bool)
    requires name in entries
    ensures same <==> EquivalentEntry(value, entries[name])
    decreases entries[name], 1
  {
    if entries[name].SubList? {
      same := IsEquivalent(value, entries[name]);
    } else {
      var param := GetPythonParameter(entries, name);
      same := param.Object? && PyEqual(param.v, value);
    }
  }
}
