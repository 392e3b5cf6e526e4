/** Package IDs of the Trilinos package database, and sorted lists of them. */
module PackageIds {
  import opened Wrappers

  /** package + "-" + version */
  function PackageId(name: string, version: string): string {
    name + "-" + version
  }

  /** The position of the first '-' from `from` on, or the length. */
  function NextDash(s: string, from: nat): (i: nat)
    requires from <= |s|
    ensures from <= i <= |s| && (forall k :: from <= k < i ==> s[k] != '-') && (i < |s| ==> s[i] == '-')
    decreases |s| - from
  {
    if from == |s| || s[from] == '-' then from else NextDash(s, from + 1)
  }

  function NameOf(id: string): string {
    id[..NextDash(id, 0)]
  }

  /** id.split("-")[1]; None if there is no such element. */
  function VersionOf(id: string): Option<string> {
    var i := NextDash(id, 0);
    if i == |id| then None else Some(id[i + 1..NextDash(id, i + 1)])
  }

  /** Names and versions without '-' can be read off the ID. */
  lemma IdSplits(name: string, version: string)
    requires '-' !in name && '-' !in version
    ensures NameOf(name + "-" + version) == name && VersionOf(name + "-" + version) == Some(version)
    ensures PackageId(name, version) == name + "-" + version
  {
    var id := PackageId(name, version);
    assert id[|name|] == '-';
    assert forall k :: 0 <= k < |name| ==> id[k] == name[k];
    assert NextDash(id, 0) == |name|;
    assert forall k :: |name| + 1 <= k < |id| ==> id[k] == version[k - |name| - 1];
    assert NextDash(id, |name| + 1) == |id|;
    assert id[..|name|] == name && id[|name| + 1..|id|] == version;
  }

  // ---------- the order of strings ----------

  predicate Less(a: string, b: string) {
    b != "" && (a == "" || a[0] < b[0] || (a[0] == b[0] && Less(a[1..], b[1..])))
  }

  lemma {:induction false} LessIsTotal(a: string, b: string)
    ensures Less(a, b) || Less(b, a) || a == b
    ensures !(Less(a, b) && Less(b, a)) && !Less(a, a)
  {
    if a != "" {
      LessIsTotal(a[1..], a[1..]);
      if b != "" {
        LessIsTotal(a[1..], b[1..]);
        assert a == [a[0]] + a[1..] && b == [b[0]] + b[1..];
      }
    }
  }

  lemma {:induction false} LessIsTransitive(a: string, b: string, c: string)
    requires Less(a, b) && Less(b, c)
    ensures Less(a, c)
  {
    if a != "" && a[0] == b[0] == c[0] {
      LessIsTransitive(a[1..], b[1..], c[1..]);
    }
  }

  /** Texts are ordered by their first difference, and a text before every longer one that starts with it. */
  lemma {:induction false} LessAtFirstDifference(common: string, a: char, b: char, s: string, t: string)
    ensures Less(common, common + [a] + s)
    ensures a < b ==> Less(common + [a] + s, common + [b] + t)
  {
    if common == "" {
      assert "" + [a] + s == [a] + s && "" + [b] + t == [b] + t;
    } else {
      LessAtFirstDifference(common[1..], a, b, s, t);
      assert (common + [a] + s)[1..] == common[1..] + [a] + s && (common + [b] + t)[1..] == common[1..] + [b] + t;
    }
  }

  predicate IsSorted(s: seq<string>) {
    forall i, j :: 0 <= i < j < |s| ==> Less(s[i], s[j])
  }

  /** The sorted, duplicate-free list of the elements of `elements`. */
  ghost predicate IsSortedList(s: seq<string>, elements: set<string>) {
    IsSorted(s) && forall x :: x in s <==> x in elements
  }

  method Least(elements: set<string>) returns (m: string)
    requires elements != {}
    ensures m in elements && forall x :: x in elements && x != m ==> Less(m, x)
  {
    m :| m in elements;
    var rest := elements - {m};
    while rest != {}
      invariant m in elements && rest <= elements
      invariant forall x :: x in elements - rest && x != m ==> Less(m, x)
      decreases |rest|
    {
      var y :| y in rest;
      LessIsTotal(m, y);
      if Less(y, m) {
        forall x | x in elements - rest && x != y
          ensures Less(y, x)
        {
          if x != m {
            LessIsTransitive(y, m, x);
          }
        }
        m := y;
      }
      rest := rest - {y};
    }
  }

  /** list(set) followed by sort. */
  method SortedList(elements: set<string>) returns (s: seq<string>)
    ensures IsSortedList(s, elements)
  {
    s := [];
    var rest := elements;
    while rest != {}
      invariant rest <= elements && IsSortedList(s, elements - rest)
      invariant forall x, y :: x in s && y in rest ==> Less(x, y)
      decreases |rest|
    {
      var m := Least(rest);
      s := s + [m];
      rest := rest - {m};
    }
  }
}
