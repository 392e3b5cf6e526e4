/** The cell labels of the package dependency table and the rule that merges two of them. */
module DependencyLabels {
  import opened Wrappers

  /** The four dependency lists of a package. */
  datatype Category = LibRequired | LibOptional | TestRequired | TestOptional

  const CATEGORIES := [LibRequired, LibOptional, TestRequired, TestOptional]

  predicate IsLib(c: Category) {
    c.LibRequired? || c.LibOptional?
  }

  predicate IsRequired(c: Category) {
    c.LibRequired? || c.TestRequired?
  }

  function CategoryName(c: Category): string {
    match c
    case LibRequired => "LR"
    case LibOptional => "LO"
    case TestRequired => "TR"
    case TestOptional => "TO"
  }

  /** State of the walk: is the next edge direct, were all edges so far required, did the walk start with a test edge? */
  datatype DepStats = DepStats(isDirect: bool, isRequired: bool, isTestDepChain: bool)

  // ---------- label texts, as the table stores them ----------

  predicate IsRequiredDep(dep: string)
    requires dep != ""
  {
    dep[|dep| - 1] == 'R'
  }

  predicate IsDirectDep(dep: string)
    requires dep != ""
  {
    dep[0] != 'I'
  }

  /** False when reading the label's characters raises: "" has none, and "X" has no second one. */
  predicate Readable(dep: string) {
    dep != "" && (dep[0] == 'L' || |dep| >= 2)
  }

  predicate IsLibDep(dep: string)
    requires Readable(dep)
  {
    dep[0] == 'L' || dep[1] == 'L'
  }

  /** Merges two label texts. None stands for a raised exception: a text that is not
      readable (the diagonal "X"), or two texts that no rule tells apart. */
  function UpdatePackageDep(dep1: string, dep2: string): Option<string> {
    if !Readable(dep1) || !Readable(dep2) then
      None
    else
      var required1, required2 := IsRequiredDep(dep1), IsRequiredDep(dep2);
      var direct1, direct2 := IsDirectDep(dep1), IsDirectDep(dep2);
      var lib1, lib2 := IsLibDep(dep1), IsLibDep(dep2);
      if dep1 == dep2 then Some(dep1)
      else if required1 && !required2 then Some(dep1)
      else if !required1 && required2 then Some(dep2)
      else if direct1 && !direct2 then Some(dep1)
      else if !direct1 && direct2 then Some(dep2)
      else if lib1 && !lib2 then Some(dep1)
      else if !lib1 && lib2 then Some(dep2)
      else None
  }

  /** The text that one visited dependency contributes to a cell. */
  function NewDepName(stats: DepStats, c: Category): string {
    var name := CategoryName(c);
    var name := if stats.isTestDepChain then "T" + name[1..] else name;
    var name := if stats.isDirect then name else "I" + name;
    if stats.isRequired then name else name[..|name| - 1] + "O"
  }

  // ---------- labels as values, and their order ----------

  datatype Label = Label(required: bool, direct: bool, lib: bool)

  function Show(l: Label): string {
    (if l.direct then "" else "I") + (if l.lib then "L" else "T") + (if l.required then "R" else "O")
  }

  function Text(cell: Option<Label>): string {
    if cell.None? then "" else Show(cell.value)
  }

  /** "Required trumps optional, then direct trumps indirect, then library trumps test." */
  predicate Weaker(a: Label, b: Label) {
    if a.required != b.required then b.required
    else if a.direct != b.direct then b.direct
    else a.lib ==> b.lib
  }

  function Stronger(a: Label, b: Label): Label {
    if Weaker(a, b) then b else a
  }

  function Join(cell: Option<Label>, l: Label): Label {
    if cell.None? then l else Stronger(cell.value, l)
  }

  /** The label that the walk gives to an edge of category `c`. */
  function VisitLabel(stats: DepStats, c: Category): Label {
    Label(stats.isRequired && IsRequired(c), stats.isDirect, IsLib(c) && !stats.isTestDepChain)
  }

  lemma WeakerIsTotalOrder(a: Label, b: Label, c: Label)
    ensures Weaker(a, a)
    ensures Weaker(a, b) || Weaker(b, a)
    ensures Weaker(a, b) && Weaker(b, a) ==> a == b
    ensures Weaker(a, b) && Weaker(b, c) ==> Weaker(a, c)
  {
  }

  lemma ShowIndexed(l: Label)
    ensures |Show(l)| == if l.direct then 2 else 3
    ensures Show(l)[|Show(l)| - 1] == if l.required then 'R' else 'O'
    ensures l.direct ==> Show(l)[0] == if l.lib then 'L' else 'T'
    ensures !l.direct ==> Show(l)[0] == 'I' && Show(l)[1] == if l.lib then 'L' else 'T'
  {
  }

  lemma ShowIsInjective(a: Label, b: Label)
    requires Show(a) == Show(b)
    ensures a == b
  {
    ShowIndexed(a);
    ShowIndexed(b);
  }

  /** The assertion at the end of the merge never fails on labels, and the stronger label wins. */
  lemma UpdatePackageDepJoins(a: Label, b: Label)
    ensures UpdatePackageDep(Show(a), Show(b)) == Some(Show(Stronger(a, b)))
  {
    ShowIndexed(a);
    ShowIndexed(b);
    if Show(a) == Show(b) {
      ShowIsInjective(a, b);
    }
  }

  /** Merging anything into the diagonal mark raises. */
  lemma UpdatePackageDepRejectsDiagonal(dep: string)
    ensures UpdatePackageDep("X", dep) == None
  {
  }

  lemma NewDepNameShows(stats: DepStats, c: Category)
    ensures NewDepName(stats, c) == Show(VisitLabel(stats, c))
  {
    var name := NewDepName(stats, c);
    var shown := Show(VisitLabel(stats, c));
    ShowIndexed(VisitLabel(stats, c));
    assert |name| == |shown|;
    assert forall k :: 0 <= k < |name| ==> name[k] == shown[k];
  }

  // ---------- the priorities, on the letters ----------

  /** An optional "I" for indirect, "L" or "T" for library or test, "R" or "O" for required or optional. */
  predicate IsLabelText(s: string) {
    && 2 <= |s| <= 3 && (|s| == 3 ==> s[0] == 'I')
    && (s[|s| - 2] == 'L' || s[|s| - 2] == 'T') && (s[|s| - 1] == 'R' || s[|s| - 1] == 'O')
  }

  lemma LabelTextsAreShown(s: string)
    ensures IsLabelText(s) <==> exists l: Label :: Show(l) == s
  {
    if IsLabelText(s) {
      var l := Label(s[|s| - 1] == 'R', |s| == 2, s[|s| - 2] == 'L');
      ShowIndexed(l);
      assert forall k :: 0 <= k < |s| ==> Show(l)[k] == s[k];
      assert Show(l) == s;
    } else if l: Label :| Show(l) == s {
      ShowIndexed(l);
    }
  }

  predicate Wins(s: string, t: string) {
    UpdatePackageDep(s, t) == Some(s) && UpdatePackageDep(t, s) == Some(s)
  }

  /** A required label beats an optional one, whatever the rest; then a direct label beats an indirect one,
      whatever the rest; then a library label beats a test label. */
  lemma PrioritiesOfLetters(s: string, t: string)
    requires IsLabelText(s) && IsLabelText(t)
    ensures s[|s| - 1] == 'R' && t[|t| - 1] == 'O' ==> Wins(s, t)
    ensures s[|s| - 1] == t[|t| - 1] && s[0] != 'I' && t[0] == 'I' ==> Wins(s, t)
    ensures s[|s| - 1] == t[|t| - 1] && |s| == |t| && s[|s| - 2] == 'L' && t[|t| - 2] == 'T' ==> Wins(s, t)
    ensures s == t ==> Wins(s, t)
  {
  }
}
