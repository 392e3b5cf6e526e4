/** Python dictionaries and Teuchos parameter lists as values: conversion of leaves,
    the deep merge of the two, and equivalence. */
module ParameterValues {
  import opened Wrappers

  type CLong = x: int | -0x8000_0000_0000_0000 <= x < 0x8000_0000_0000_0000
  type CInt = x: int | -0x8000_0000 <= x < 0x8000_0000

  /** Names cross the language border as C strings, so they hold no NUL character. */
  type Name = s: string | '\0' !in s

  /** PyOther stands for every object that is no parameter value. */
  datatype PyValue =
    | PyNone
    | PyBool(b: bool)
    | PyInt(i: CLong)
    | PyFloat(x: real)
    | PyString(s: string)
    | PyDict(items: map<Name, PyValue>)
    | PyOther

  /** OtherParam stands for every stored type that has no Python counterpart. */
  datatype Param =
    | BoolParam(b: bool)
    | IntParam(i: CInt)
    | DoubleParam(x: real)
    | StringParam(s: string)
    | SubList(entries: map<Name, Param>)
    | OtherParam

  // ---------- leaves ----------

  /** The cast from long to int: the low 32 bits, in two's complement. */
  function Truncate(i: CLong): (r: CInt)
    ensures r == i <==> -0x8000_0000 <= i < 0x8000_0000
  {
    var low := i % 0x1_0000_0000;
    if low < 0x8000_0000 then low else low - 0x1_0000_0000
  }

  /** A string read through a C pointer ends at its first NUL. */
  function CString(s: string): (r: string)
    ensures '\0' !in r
    ensures r == s <==> '\0' !in s
  {
    if s == "" || s[0] == '\0' then "" else [s[0]] + CString(s[1..])
  }

  /** What a leaf parameter looks like in Python. */
  function ToPython(p: Param): Option<PyValue>
    requires !p.SubList?
  {
    match p
    case BoolParam(b) => Some(PyBool(b))
    case IntParam(i) => Some(PyInt(i))
    case DoubleParam(x) => Some(PyFloat(x))
    case StringParam(s) => Some(PyString(CString(s)))
    case OtherParam => None
  }

  /** What a leaf object is stored as. */
  function ToParam(v: PyValue): Option<Param>
    requires !v.PyDict?
  {
    match v
    case PyBool(b) => Some(BoolParam(b))
    case PyInt(i) => Some(IntParam(Truncate(i)))
    case PyFloat(x) => Some(DoubleParam(x))
    case PyString(s) => Some(StringParam(CString(s)))
    case PyNone => None
    case PyOther => None
  }

  predicate IsNumber(v: PyValue) {
    v.PyBool? || v.PyInt? || v.PyFloat?
  }

  function Number(v: PyValue): real
    requires IsNumber(v)
  {
    match v
    case PyBool(b) => if b then 1.0 else 0.0
    case PyInt(i) => i as real
    case PyFloat(x) => x
  }

  /** Python's `==` between a leaf and any object: numbers compare by value across their types. */
  predicate PyEqual(leaf: PyValue, v: PyValue)
    requires !leaf.PyDict?
  {
    if IsNumber(leaf) && IsNumber(v) then Number(leaf) == Number(v) else leaf == v
  }

  // ---------- what a dictionary or list must hold ----------

  /** Convertible: every leaf has a parameter type. Faithful: and is stored without loss. */
  datatype Need = Convertible | Faithful

  predicate LeafMeets(need: Need, v: PyValue)
    requires !v.PyDict?
  {
    match v
    case PyInt(i) => need.Faithful? ==> -0x8000_0000 <= i < 0x8000_0000
    case PyString(s) => need.Faithful? ==> '\0' !in s
    case _ => !v.PyNone? && !v.PyOther?
  }

  predicate Meets(need: Need, v: PyValue) {
    if v.PyDict? then forall k :: k in v.items ==> Meets(need, v.items[k]) else LeafMeets(need, v)
  }

  predicate AllMeet(need: Need, d: map<Name, PyValue>) {
    forall k :: k in d ==> Meets(need, d[k])
  }

  /** Every parameter, at any depth, has a Python counterpart. */
  predicate Supported(p: Param) {
    if p.SubList? then forall k :: k in p.entries ==> Supported(p.entries[k]) else !p.OtherParam?
  }

  predicate AllSupported(p: map<Name, Param>) {
    forall k :: k in p ==> Supported(p[k])
  }

  // ---------- the specification: deep merge, list wins ----------

  function ItemsOf(v: Option<PyValue>): map<Name, PyValue> {
    if v.Some? && v.value.PyDict? then v.value.items else map[]
  }

  function Get<V>(m: map<Name, V>, k: Name): Option<V> {
    if k in m then Some(m[k]) else None
  }

  /** The value under a name that the list holds, given the dictionary's own value there. */
  function MergeEntry(v: Option<PyValue>, p: Param): (r: PyValue)
    requires Supported(p)
    ensures r.PyDict? <==> p.SubList?
    decreases p
  {
    if p.SubList? then
      var d := ItemsOf(v);
      PyDict(map k | k in d.Keys + p.entries.Keys ::
        if k in p.entries then MergeEntry(Get(d, k), p.entries[k]) else d[k])
    else
      ToPython(p).value
  }

  function Merge(d: map<Name, PyValue>, p: map<Name, Param>): map<Name, PyValue>
    requires AllSupported(p)
  {
    MergeEntry(Some(PyDict(d)), SubList(p)).items
  }

  /** The parameter that an object converts to. */
  function ToParamEntry(v: PyValue): (r: Param)
    requires Meets(Convertible, v)
    ensures r.SubList? <==> v.PyDict?
    decreases v
  {
    if v.PyDict? then SubList(map k | k in v.items :: ToParamEntry(v.items[k])) else ToParam(v).value
  }

  function ToParams(d: map<Name, PyValue>): map<Name, Param>
    requires AllMeet(Convertible, d)
  {
    map k | k in d :: ToParamEntry(d[k])
  }

  /** Equal leaves, or nested tables with the same names and equivalent values at every name. */
  predicate EquivalentEntry(v: PyValue, p: Param)
    decreases p
  {
    if p.SubList? then
      && v.PyDict?
      && v.items.Keys == p.entries.Keys
      && forall k :: k in p.entries ==> EquivalentEntry(v.items[k], p.entries[k])
    else
      ToPython(p).Some? && PyEqual(ToPython(p).value, v)
  }

  predicate Equivalent(d: map<Name, PyValue>, p: map<Name, Param>) {
    EquivalentEntry(PyDict(d), SubList(p))
  }

  // ---------- conditions on the two inputs ----------

  /** The part of the dictionary value `v` that a list value `p` at the same place leaves alone meets the need. */
  predicate SurvivorsMeet(need: Need, v: Option<PyValue>, p: Param)
    decreases p
  {
    p.SubList? ==>
      forall k :: k in ItemsOf(v) ==>
        if k in p.entries then SurvivorsMeet(need, Get(ItemsOf(v), k), p.entries[k]) else Meets(need, ItemsOf(v)[k])
  }

  /** What the list overrides does not matter; everything else in the dictionary meets the need. */
  predicate DictOnlyMeets(need: Need, d: map<Name, PyValue>, p: map<Name, Param>) {
    SurvivorsMeet(need, Some(PyDict(d)), SubList(p))
  }

  lemma {:induction false} MergedEntryMeets(need: Need, v: Option<PyValue>, p: Param)
    requires Supported(p)
    ensures Meets(need, MergeEntry(v, p)) <==> SurvivorsMeet(need, v, p)
    decreases p
  {
    if p.SubList? {
      var d, m := ItemsOf(v), MergeEntry(v, p).items;
      forall k | k in m
        ensures Meets(need, m[k]) <==>
                if k in p.entries then SurvivorsMeet(need, Get(d, k), p.entries[k]) else Meets(need, d[k])
      {
        if k in p.entries {
          MergedEntryMeets(need, Get(d, k), p.entries[k]);
        }
      }
      forall k | k in p.entries && k !in d
        ensures SurvivorsMeet(need, Get(d, k), p.entries[k])
      {
        NothingSurvives(need, p.entries[k]);
      }
      assert forall k :: k in d ==> k in m;
    }
  }

  lemma NothingSurvives(need: Need, p: Param)
    ensures SurvivorsMeet(need, None, p)
  {
  }

  /** The merged dictionary meets a need iff what only the dictionary holds does. */
  lemma MergeMeets(need: Need, d: map<Name, PyValue>, p: map<Name, Param>)
    requires AllSupported(p)
    ensures AllMeet(need, Merge(d, p)) <==> DictOnlyMeets(need, d, p)
  {
    MergedEntryMeets(need, Some(PyDict(d)), SubList(p));
  }

  /** Storing a dictionary loses nothing iff the stored list is equivalent to it. */
  lemma {:induction false} StoredEntryEquivalent(v: PyValue)
    requires Meets(Convertible, v)
    ensures EquivalentEntry(v, ToParamEntry(v)) <==> Meets(Faithful, v)
    decreases v
  {
    if v.PyDict? {
      forall k | k in v.items
        ensures EquivalentEntry(v.items[k], ToParamEntry(v.items[k])) <==> Meets(Faithful, v.items[k])
      {
        StoredEntryEquivalent(v.items[k]);
      }
    }
  }

  lemma StoredEquivalent(d: map<Name, PyValue>)
    requires AllMeet(Convertible, d)
    ensures Equivalent(d, ToParams(d)) <==> AllMeet(Faithful, d)
  {
    StoredEntryEquivalent(PyDict(d));
  }

  // ---------- the merge, place by place ----------

  function PyAt(v: Option<PyValue>, path: seq<Name>): Option<PyValue>
    decreases |path|
  {
    if path == [] then v else PyAt(Get(ItemsOf(v), path[0]), path[1..])
  }

  function ParamAt(p: Option<Param>, path: seq<Name>): Option<Param>
    decreases |path|
  {
    if path == [] then p
    else if p.Some? && p.value.SubList? then ParamAt(Get(p.value.entries, path[0]), path[1..])
    else None
  }

  /** The list holds a leaf strictly above the place. */
  predicate LeafAbove(p: Param, path: seq<Name>)
    decreases |path|
  {
    path != [] &&
    (p.SubList? ==> path[0] in p.entries && LeafAbove(p.entries[path[0]], path[1..]))
  }

  /** At every place the merge holds what the list holds there; below a leaf of the list it holds nothing;
      and everywhere else it holds exactly what the dictionary did. */
  lemma {:induction false} MergeAtPlace(v: Option<PyValue>, p: Param, path: seq<Name>)
    requires Supported(p)
    ensures var merged, listed := PyAt(Some(MergeEntry(v, p)), path), ParamAt(Some(p), path);
            && (listed.Some? ==> merged.Some? && (merged.value.PyDict? <==> listed.value.SubList?))
            && (listed.Some? && !listed.value.SubList? ==> merged == ToPython(listed.value))
            && (listed.None? && LeafAbove(p, path) ==> merged.None?)
            && (listed.None? && !LeafAbove(p, path) ==> merged == PyAt(v, path))
    decreases |path|
  {
    if path != [] && p.SubList? && path[0] in p.entries {
      MergeAtPlace(Get(ItemsOf(v), path[0]), p.entries[path[0]], path[1..]);
    } else if path != [] && !p.SubList? {
      NothingBelowLeaf(MergeEntry(v, p), path);
    }
  }

  lemma NothingBelowLeaf(leaf: PyValue, path: seq<Name>)
    requires !leaf.PyDict? && path != []
    ensures PyAt(Some(leaf), path) == None
  {
    NothingBelowNothing(path[1..]);
  }

  lemma NothingBelowNothing(path: seq<Name>)
    ensures PyAt(None, path) == None
    decreases |path|
  {
  }

  // ---------- synchronising twice ----------

  lemma {:induction false} StoredAgain(v: PyValue)
    requires Meets(Convertible, v)
    ensures var p := ToParamEntry(v);
            Supported(p) &&
            var w := MergeEntry(Some(v), p);
            Meets(Convertible, w) && Meets(Faithful, w) && ToParamEntry(w) == p
    decreases v
  {
    if v.PyDict? {
      var p := ToParamEntry(v);
      forall k | k in v.items
        ensures Supported(ToParamEntry(v.items[k])) &&
                var w := MergeEntry(Some(v.items[k]), ToParamEntry(v.items[k]));
                Meets(Convertible, w) && Meets(Faithful, w) && ToParamEntry(w) == ToParamEntry(v.items[k])
      {
        StoredAgain(v.items[k]);
      }
      var w := MergeEntry(Some(v), p);
      assert w.items.Keys == v.items.Keys;
      assert forall k :: k in v.items ==> w.items[k] == MergeEntry(Some(v.items[k]), ToParamEntry(v.items[k]));
    }
  }

  /** Once a list has been stored from a dictionary, merging it back settles both:
      the list stays as it is and the dictionary becomes equivalent to it, whatever was lost before. */
  lemma SecondMergeSettles(d: map<Name, PyValue>)
    requires AllMeet(Convertible, d)
    ensures AllSupported(ToParams(d))
    ensures var again := Merge(d, ToParams(d));
            AllMeet(Convertible, again) && ToParams(again) == ToParams(d) && Equivalent(again, ToParams(again))
  {
    StoredAgain(PyDict(d));
    assert ToParamEntry(PyDict(d)) == SubList(ToParams(d));
    var again := Merge(d, ToParams(d));
    StoredEquivalent(again);
    assert ToParamEntry(PyDict(again)) == SubList(ToParams(again));
  }

  // ---------- a new dictionary and back ----------

  /** No string at any depth holds a NUL character. */
  predicate NulFree(p: Param) {
    match p
    case SubList(entries) => forall k :: k in entries ==> NulFree(entries[k])
    case StringParam(s) => '\0' !in s
    case _ => true
  }

  lemma {:induction false} EntryThereAndBack(p: Param)
    requires Supported(p)
    ensures var v := MergeEntry(None, p);
            Meets(Faithful, v) && Meets(Convertible, v) && (ToParamEntry(v) == p <==> NulFree(p))
    decreases p
  {
    if p.SubList? {
      var v := MergeEntry(None, p);
      assert v.items.Keys == p.entries.Keys;
      forall k | k in p.entries
        ensures v.items[k] == MergeEntry(None, p.entries[k])
        ensures Meets(Faithful, v.items[k]) && Meets(Convertible, v.items[k])
        ensures ToParamEntry(v.items[k]) == p.entries[k] <==> NulFree(p.entries[k])
      {
        EntryThereAndBack(p.entries[k]);
      }
      SameEntries(v, p);
    }
  }

  lemma SameEntries(v: PyValue, p: Param)
    requires v.PyDict? && p.SubList? && v.items.Keys == p.entries.Keys && Meets(Convertible, v)
    ensures ToParamEntry(v) == p <==> forall k :: k in p.entries ==> ToParamEntry(v.items[k]) == p.entries[k]
  {
    var stored := ToParamEntry(v).entries;
    assert stored.Keys == p.entries.Keys;
    assert forall k :: k in stored ==> stored[k] == ToParamEntry(v.items[k]);
    if forall k :: k in p.entries ==> ToParamEntry(v.items[k]) == p.entries[k] {
      assert stored == p.entries;
    }
  }

  /** A list copied to a new dictionary and from there to a new list comes back unchanged iff no string holds a NUL. */
  lemma ListThereAndBack(p: map<Name, Param>)
    requires AllSupported(p)
    ensures AllMeet(Faithful, Merge(map[], p)) && AllMeet(Convertible, Merge(map[], p))
    ensures ToParams(Merge(map[], p)) == p <==> forall k :: k in p ==> NulFree(p[k])
  {
    EntryThereAndBack(SubList(p));
    var d := Merge(map[], p);
    assert MergeEntry(None, SubList(p)) == PyDict(d);
    assert ToParamEntry(PyDict(d)) == SubList(ToParams(d));
  }

  // ---------- equivalence, place by place ----------

  /** The cast keeps the number modulo 2 to the 32nd. */
  lemma TruncateKeepsLowBits(i: CLong)
    ensures (i - Truncate(i)) % 0x1_0000_0000 == 0
  {
  }

  lemma {:induction false} CStringEndsAtNul(a: string, b: string)
    requires '\0' !in a
    ensures CString(a) == a && CString(a + "\0" + b) == a
  {
    if a != "" {
      CStringEndsAtNul(a[1..], b);
      assert (a + "\0" + b)[1..] == a[1..] + "\0" + b && (a + "\0" + b)[0] == a[0];
    }
  }

  /** The text of `s` before its first NUL. */
  predicate IsBeforeNul(t: string, s: string) {
    '\0' !in t && (t == s || t + "\0" <= s)
  }

  lemma BeforeNulIsCString(t: string, s: string)
    ensures IsBeforeNul(t, s) <==> t == CString(s)
  {
    if IsBeforeNul(t, s) {
      if t != s {
        assert s == t + "\0" + s[|t| + 1..];
        CStringEndsAtNul(t, s[|t| + 1..]);
      }
    } else if t == CString(s) {
      CStringIsBeforeNul(s);
      assert false;
    }
  }

  lemma {:induction false} CStringIsBeforeNul(s: string)
    ensures IsBeforeNul(CString(s), s)
  {
    if s != "" && s[0] != '\0' {
      CStringIsBeforeNul(s[1..]);
      var t := CString(s[1..]);
      assert CString(s) == [s[0]] + t && s == [s[0]] + s[1..];
      if t != s[1..] {
        assert t + "\0" <= s[1..];
        assert CString(s) + "\0" == [s[0]] + (t + "\0");
      }
    }
  }

  /** The Python objects that equal a leaf of a list: a number equals the numbers and booleans of its value, a string the
      part before its first NUL. */
  predicate LeafMatches(p: Param, v: PyValue)
    requires !p.SubList?
  {
    match p
    case IntParam(i) =>
      v == PyInt(i) || v == PyFloat(i as real) || (i == 0 && v == PyBool(false)) || (i == 1 && v == PyBool(true))
    case DoubleParam(x) =>
      v == PyFloat(x) || (v.PyInt? && v.i as real == x) || (x == 0.0 && v == PyBool(false)) || (x == 1.0 && v == PyBool(true))
    case BoolParam(b) =>
      v == PyBool(b) || v == PyInt(if b then 1 else 0) || v == PyFloat(if b then 1.0 else 0.0)
    case StringParam(s) => v.PyString? && IsBeforeNul(v.s, s)
    case OtherParam => false
  }

  lemma EquivalentLeaf(p: Param, v: PyValue)
    requires !p.SubList?
    ensures EquivalentEntry(v, p) <==> LeafMatches(p, v)
  {
    if p.StringParam? && v.PyString? {
      BeforeNulIsCString(v.s, p.s);
    }
  }

  /** Both sides hold nothing at a place, or both a table, or equal leaves. */
  predicate PlaceMatches(v: Option<PyValue>, p: Option<Param>) {
    match p
    case None => v.None?
    case Some(SubList(_)) => v.Some? && v.value.PyDict?
    case Some(leaf) => v.Some? && !v.value.PyDict? && LeafMatches(leaf, v.value)
  }

  ghost predicate EveryPlaceMatches(v: Option<PyValue>, p: Option<Param>) {
    forall path :: PlaceMatches(PyAt(v, path), ParamAt(p, path))
  }

  /** A dictionary and a list are equivalent iff they match at every place, at any depth. */
  lemma EquivalentIffEveryPlaceMatches(v: PyValue, p: Param)
    ensures EquivalentEntry(v, p) <==> EveryPlaceMatches(Some(v), Some(p))
  {
    if EquivalentEntry(v, p) {
      EquivalentMatches(v, p);
    }
    if EveryPlaceMatches(Some(v), Some(p)) {
      MatchingIsEquivalent(v, p);
    }
  }

  lemma {:induction false} MatchingIsEquivalent(v: PyValue, p: Param)
    requires EveryPlaceMatches(Some(v), Some(p))
    ensures EquivalentEntry(v, p)
    decreases p
  {
    assert PlaceMatches(PyAt(Some(v), []), ParamAt(Some(p), []));
    if p.SubList? {
      forall k: Name
        ensures EveryPlaceMatches(Get(v.items, k), Get(p.entries, k))
      {
        MatchesBelow(v, p, k);
      }
      forall k | k in v.items || k in p.entries
        ensures k in v.items && k in p.entries && EquivalentEntry(v.items[k], p.entries[k])
      {
        assert PlaceMatches(PyAt(Get(v.items, k), []), ParamAt(Get(p.entries, k), []));
        MatchingIsEquivalent(v.items[k], p.entries[k]);
      }
      assert v.items.Keys == p.entries.Keys;
    } else {
      EquivalentLeaf(p, v);
    }
  }

  lemma MatchesBelow(v: PyValue, p: Param, k: Name)
    requires v.PyDict? && p.SubList? && EveryPlaceMatches(Some(v), Some(p))
    ensures EveryPlaceMatches(Get(v.items, k), Get(p.entries, k))
  {
    hide PlaceMatches;
    forall path
      ensures PlaceMatches(PyAt(Get(v.items, k), path), ParamAt(Get(p.entries, k), path))
    {
      assert ([k] + path)[0] == k && ([k] + path)[1..] == path;
      assert PlaceMatches(PyAt(Some(v), [k] + path), ParamAt(Some(p), [k] + path));
    }
  }

  lemma EquivalentMatches(v: PyValue, p: Param)
    requires EquivalentEntry(v, p)
    ensures EveryPlaceMatches(Some(v), Some(p))
  {
    forall path
      ensures PlaceMatches(PyAt(Some(v), path), ParamAt(Some(p), path))
    {
      EquivalentAtPlace(v, p, path);
    }
  }

  lemma {:induction false} EquivalentAtPlace(v: PyValue, p: Param, path: seq<Name>)
    requires EquivalentEntry(v, p)
    ensures PlaceMatches(PyAt(Some(v), path), ParamAt(Some(p), path))
    decreases |path|
  {
    if path == [] {
      if !p.SubList? {
        EquivalentLeaf(p, v);
      }
    } else if !p.SubList? {
      EquivalentLeaf(p, v);
      NothingBelowLeaf(v, path);
    } else if path[0] in p.entries {
      EquivalentAtPlace(v.items[path[0]], p.entries[path[0]], path[1..]);
    } else {
      NothingBelowNothing(path[1..]);
      NoParamBelowNothing(path[1..]);
    }
  }

  lemma NoParamBelowNothing(path: seq<Name>)
    ensures ParamAt(None, path) == None
  {
  }

  /** The stored type of every leaf, and the leaves that are stored. */
  lemma LeavesAreStoredByType(v: PyValue)
    requires !v.PyDict?
    ensures v.PyBool? ==> ToParam(v) == Some(BoolParam(v.b))
    ensures v.PyInt? ==> exists i: CInt :: ToParam(v) == Some(IntParam(i)) && (v.i - i) % 0x1_0000_0000 == 0
    ensures v.PyFloat? ==> ToParam(v) == Some(DoubleParam(v.x))
    ensures v.PyString? ==> exists t :: ToParam(v) == Some(StringParam(t)) && IsBeforeNul(t, v.s)
    ensures ToParam(v).Some? <==> LeafMeets(Convertible, v)
    ensures LeafMeets(Convertible, v) <==> v.PyBool? || v.PyInt? || v.PyFloat? || v.PyString?
  {
    match v
    case PyInt(i) => TruncateKeepsLowBits(i);
    case PyString(s) => CStringIsBeforeNul(s);
    case _ =>
  }
}
