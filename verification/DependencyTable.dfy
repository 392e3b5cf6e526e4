/** The package list, its two indexes, and the walk that fills the dependency table in place. */
module DependencyTable {
  import opened Wrappers
  import opened DependencyLabels
  import opened DependencyChains
  import opened DependencyRows

  class PackageDependencies {
    const packageName: string
    const packageDir: string
    const libRequiredDepPackages: seq<string>
    const libOptionalDepPackages: seq<string>
    const testRequiredDepPackages: seq<string>
    const testOptionalDepPackages: seq<string>
    var packageID: int

    constructor (name: string, dir: string,
                 libRequired: seq<string>, libOptional: seq<string>,
                 testRequired: seq<string>, testOptional: seq<string>)
      ensures packageName == name && packageDir == dir && packageID == -1
      ensures libRequiredDepPackages == libRequired && libOptionalDepPackages == libOptional
      ensures testRequiredDepPackages == testRequired && testOptionalDepPackages == testOptional
    {
      packageName, packageDir, packageID := name, dir, -1;
      libRequiredDepPackages, libOptionalDepPackages := libRequired, libOptional;
      testRequiredDepPackages, testOptionalDepPackages := testRequired, testOptional;
    }

    function DepNames(c: Category): seq<string> {
      match c
      case LibRequired => libRequiredDepPackages
      case LibOptional => libOptionalDepPackages
      case TestRequired => testRequiredDepPackages
      case TestOptional => testOptionalDepPackages
    }
  }

  // ---------- the resolved graph ----------

  function Resolve(names: seq<string>, ids: map<string, nat>): (r: seq<nat>)
    requires forall n :: n in names ==> n in ids
    ensures |r| == |names| && forall k :: 0 <= k < |r| ==> r[k] == ids[names[k]]
  {
    seq(|names|, k requires 0 <= k < |names| => ids[names[k]])
  }

  ghost predicate NamesKnown(packages: seq<PackageDependencies>, ids: map<string, nat>) {
    && (forall n :: n in ids ==> ids[n] < |packages|)
    && (forall p, c, n :: 0 <= p < |packages| && n in packages[p].DepNames(c) ==> n in ids)
  }

  function ResolvePackage(p: PackageDependencies, ids: map<string, nat>): (r: Node)
    requires forall c, n :: n in p.DepNames(c) ==> n in ids
    ensures forall c :: |Deps(r, c)| == |p.DepNames(c)|
    ensures forall c, k :: 0 <= k < |Deps(r, c)| ==> Deps(r, c)[k] == ids[p.DepNames(c)[k]]
  {
    assert forall n :: n in p.libRequiredDepPackages ==> n in p.DepNames(LibRequired);
    assert forall n :: n in p.libOptionalDepPackages ==> n in p.DepNames(LibOptional);
    assert forall n :: n in p.testRequiredDepPackages ==> n in p.DepNames(TestRequired);
    assert forall n :: n in p.testOptionalDepPackages ==> n in p.DepNames(TestOptional);
    Node(Resolve(p.libRequiredDepPackages, ids), Resolve(p.libOptionalDepPackages, ids),
         Resolve(p.testRequiredDepPackages, ids), Resolve(p.testOptionalDepPackages, ids))
  }

  /** The graph of a package list. */
  ghost function GraphOf(packages: seq<PackageDependencies>, ids: map<string, nat>): (g: Graph)
    requires NamesKnown(packages, ids)
    ensures |g| == |packages| && Closed(g)
    ensures forall p :: 0 <= p < |g| ==> g[p] == ResolvePackage(packages[p], ids)
  {
    seq(|packages|, p requires 0 <= p < |packages| => ResolvePackage(packages[p], ids))
  }

  ghost predicate Lists(names: seq<string>, ids: map<string, nat>, d: nat) {
    exists n :: n in names && n in ids && ids[n] == d
  }

  /** Which list of a package gives which edges. */
  lemma EdgesComeFromLists(packages: seq<PackageDependencies>, ids: map<string, nat>, p: nat, d: nat)
    requires NamesKnown(packages, ids) && p < |packages|
    ensures var g, package := GraphOf(packages, ids), packages[p];
      && (IsEdge(g, p, Edge(d, LibRequired)) <==> Lists(package.libRequiredDepPackages, ids, d))
      && (IsEdge(g, p, Edge(d, LibOptional)) <==> Lists(package.libOptionalDepPackages, ids, d))
      && (IsEdge(g, p, Edge(d, TestRequired)) <==> Lists(package.testRequiredDepPackages, ids, d))
      && (IsEdge(g, p, Edge(d, TestOptional)) <==> Lists(package.testOptionalDepPackages, ids, d))
  {
    ListGivesEdges(packages, ids, p, d, LibRequired);
    ListGivesEdges(packages, ids, p, d, LibOptional);
    ListGivesEdges(packages, ids, p, d, TestRequired);
    ListGivesEdges(packages, ids, p, d, TestOptional);
  }

  lemma ListGivesEdges(packages: seq<PackageDependencies>, ids: map<string, nat>, p: nat, d: nat, c: Category)
    requires NamesKnown(packages, ids) && p < |packages|
    ensures IsEdge(GraphOf(packages, ids), p, Edge(d, c)) <==> Lists(packages[p].DepNames(c), ids, d)
  {
    var deps, names := Deps(GraphOf(packages, ids)[p], c), packages[p].DepNames(c);
    assert |deps| == |names| && forall k :: 0 <= k < |deps| ==> deps[k] == ids[names[k]];
    if d in deps {
      var k :| 0 <= k < |deps| && deps[k] == d;
      assert names[k] in names && names[k] in ids;
    }
    if Lists(names, ids, d) {
      var n :| n in names && n in ids && ids[n] == d;
      var k :| 0 <= k < |names| && names[k] == n;
      assert deps[k] == d;
    }
  }

  // ---------- row contents ----------

  /** The texts of a table row: a heading, then the labels `cells`, with the diagonal mark in the package's own column. */
  ghost predicate RowHolds(texts: seq<string>, row: nat, cells: Row) {
    && |texts| == |cells| + 1
    && row < |cells|
    && texts[row + 1] == "X"
    && forall j :: 0 <= j < |cells| && j != row ==> texts[j + 1] == Text(cells[j])
  }

  function NoLabels(n: nat): Row {
    seq(n, _ => None)
  }

  /** `text` is what the raw table must hold for row package `i` and column package `j`. */
  ghost predicate IsTableText(g: Graph, libsOnly: bool, i: nat, j: nat, text: string) {
    if i == j then text == "X"
    else exists cell :: IsStrongestCell(g, libsOnly, i, j, cell) && text == Text(cell)
  }

  /** The texts of the whole row of package `i`, heading included. */
  ghost predicate IsTableRow(g: Graph, libsOnly: bool, i: nat, texts: seq<string>) {
    |texts| == |g| + 1 && forall j :: 1 <= j <= |g| ==> IsTableText(g, libsOnly, i, j - 1, texts[j])
  }

  /** The raw table depends only on which dependencies are listed, not on their order; in particular it is unique. */
  lemma TableIgnoresListOrder(g: Graph, h: Graph, libsOnly: bool, i: nat, texts: seq<string>, texts': seq<string>)
    requires SameDependencies(g, h) && i < |g|
    requires IsTableRow(g, libsOnly, i, texts) && IsTableRow(h, libsOnly, i, texts')
    ensures texts[1..] == texts'[1..]
  {
    forall j | 1 <= j <= |g|
      ensures texts[j] == texts'[j]
    {
      assert IsTableText(g, libsOnly, i, j - 1, texts[j]) && IsTableText(h, libsOnly, i, j - 1, texts'[j]);
      if i != j - 1 {
        var a :| IsStrongestCell(g, libsOnly, i, j - 1, a) && texts[j] == Text(a);
        var b :| IsStrongestCell(h, libsOnly, i, j - 1, b) && texts'[j] == Text(b);
        ListOrderIsIrrelevant(g, h, libsOnly, i, j - 1, a, b);
      }
    }
  }

  ghost predicate IsChainTo(g: Graph, libsOnly: bool, i: nat, j: nat, chain: seq<Edge>) {
    IsChain(g, libsOnly, i, chain) && End(chain) == j
  }

  /** A chain all of whose edges are required, if `required`, and that has one edge only, if `direct`. */
  ghost predicate IsChainOf(g: Graph, libsOnly: bool, i: nat, j: nat, chain: seq<Edge>, required: bool, direct: bool) {
    IsChainTo(g, libsOnly, i, j, chain) && (required ==> AllRequired(chain)) && (direct ==> |chain| == 1) && chain != []
  }

  /** What the letters of a cell off the diagonal say about the chains from its row to its column. */
  lemma CellTellsChains(g: Graph, libsOnly: bool, i: nat, j: nat, text: string)
    requires i != j && IsTableText(g, libsOnly, i, j, text)
    ensures text == "" <==> forall chain :: !IsChainTo(g, libsOnly, i, j, chain)
    ensures text != "" ==> IsLabelText(text)
    ensures text != "" ==> (text[|text| - 1] == 'R' <==> exists chain :: IsChainOf(g, libsOnly, i, j, chain, true, false))
    ensures text != "" ==>
      var required, direct := text[|text| - 1] == 'R', text[0] != 'I';
      && (direct <==> exists chain :: IsChainOf(g, libsOnly, i, j, chain, required, true))
      && (text[|text| - 2] == 'L' <==> exists chain: seq<Edge> :: IsChainOf(g, libsOnly, i, j, chain, required, direct) && IsLib(chain[0].cat))
  {
    hide IsEdge, IsLibPath, AllRequired;
    var cell :| IsStrongestCell(g, libsOnly, i, j, cell) && text == Text(cell);
    assert forall chain :: IsChainTo(g, libsOnly, i, j, chain) ==> cell.Some? && Weaker(ChainLabel(chain), cell.value);
    if cell.Some? {
      var l := cell.value;
      var best :| IsChain(g, libsOnly, i, best) && End(best) == j && ChainLabel(best) == l;
      assert IsChainOf(g, libsOnly, i, j, best, l.required, false);
      assert IsChainOf(g, libsOnly, i, j, best, l.required, l.direct);
      ShowIndexed(l);
      LabelTextsAreShown(text);
    }
  }

  predicate IsBlankRow(texts: seq<string>, n: nat) {
    |texts| == n + 1 && forall j :: 1 <= j <= n ==> texts[j] == ""
  }

  ghost predicate SelfChainFrom(g: Graph, libsOnly: bool, i: nat) {
    exists chain :: IsChain(g, libsOnly, i, chain) && End(chain) == i
  }

  /** A walk over the whole of a fresh row leaves the texts of the raw table. */
  lemma WalkLeavesTableTexts(g: Graph, rank: seq<nat>, libsOnly: bool, i: nat, ok: bool, texts: seq<string>)
    requires Closed(g) && IsRank(g, rank) && i < |g|
    requires WalkLeaves(ok, texts, i, NoLabels(|g|), Visits(g, rank, libsOnly, i, TOP_STATS))
    ensures ok <==> !SelfChainFrom(g, libsOnly, i)
    ensures ok ==> IsTableRow(g, libsOnly, i, texts)
  {
    SelfVisitIffSelfChain(g, rank, libsOnly, i);
    if ok {
      forall j | 1 <= j <= |g|
        ensures IsTableText(g, libsOnly, i, j - 1, texts[j])
      {
        WalkGivesStrongest(g, rank, libsOnly, i, NoLabels(|g|), j - 1);
        assert j - 1 != i ==> texts[j] == Text(Apply(NoLabels(|g|), Visits(g, rank, libsOnly, i, TOP_STATS))[j - 1]);
      }
    }
  }

  ghost predicate Visited(visits: seq<Visit>, row: nat) {
    exists v :: v in visits && v.to == row
  }

  /** What a walk over `visits` leaves in a row that held `cells`: it raises iff it comes back to its own package. */
  ghost predicate WalkLeaves(ok: bool, texts: seq<string>, row: nat, cells: Row, visits: seq<Visit>)
  {
    (ok <==> !Visited(visits, row)) && (ok ==> RowHolds(texts, row, Apply(cells, visits)))
  }

  lemma VisitedAppend(a: seq<Visit>, b: seq<Visit>, row: nat)
    ensures Visited(a + b, row) <==> Visited(a, row) || Visited(b, row)
  {
    if Visited(a, row) {
      var v :| v in a && v.to == row;
      assert v in a + b;
    }
    if Visited(b, row) {
      var v :| v in b && v.to == row;
      assert v in a + b;
    }
  }

  /** Two walks in a row are one walk over both visit lists. */
  lemma WalkThenWalk(ok: bool, texts: seq<string>, row: nat, cells: Row, a: seq<Visit>, b: seq<Visit>)
    requires !Visited(a, row)
    requires WalkLeaves(ok, texts, row, Apply(cells, a), b)
    ensures WalkLeaves(ok, texts, row, cells, a + b)
  {
    ApplyAppend(cells, a, b);
    VisitedAppend(a, b, row);
  }

  /** "P01", "P02", ... */
  function PackageTag(n: nat): string {
    "P" + (if n < 10 then "0" else "") + Decimal(n)
  }

  function Decimal(n: nat): string {
    if n < 10 then ["0123456789"[n]] else Decimal(n / 10) + ["0123456789"[n % 10]]
  }

  function Heading(n: nat): (r: seq<string>)
    ensures |r| == n + 1
  {
    ["Packages"] + seq(n, i requires 0 <= i < n => PackageTag(i + 1))
  }

  function RowHeading(i: nat, name: string): string {
    PackageTag(i + 1) + ") " + name
  }

  // ---------- tags can be read ----------

  predicate AreDigits(s: string) {
    forall k :: 0 <= k < |s| ==> '0' <= s[k] <= '9'
  }

  /** Reads decimal digits from left to right, behind a number already read. */
  function ReadNumber(s: string, soFar: nat): nat
    requires AreDigits(s)
  {
    if s == "" then soFar else ReadNumber(s[1..], 10 * soFar + (s[0] as int - '0' as int))
  }

  /** "P" and the number with at least two digits, filled up with a zero. */
  predicate IsTag(tag: string, n: nat) {
    && |tag| >= 3 && tag[0] == 'P' && AreDigits(tag[1..]) && ReadNumber(tag[1..], 0) == n
    && (tag[1] == '0' <==> n < 10) && (|tag| == 3 <==> n < 100)
  }

  ghost predicate IsRowTitle(text: string, n: nat, name: string) {
    exists tag :: IsTag(tag, n) && text == tag + ") " + name
  }

  /** The first text of the row of package number `n`. */
  ghost predicate IsRowHead(text: string, n: nat, name: string) {
    n > 0 && text == RowHeading(n - 1, name) && IsRowTitle(text, n, name)
  }

  /** The top row: a title, and a tag for every package. */
  ghost predicate AreTitles(texts: seq<string>, n: nat) {
    && |texts| == n + 1 && texts[0] == "Packages"
    && (forall i :: 1 <= i <= n ==> IsTag(texts[i], i))
    && (forall i, j :: 1 <= i < j <= n ==> texts[i] != texts[j])
  }

  ghost predicate IsTopRow(texts: seq<string>, n: nat) {
    texts == Heading(n) && AreTitles(texts, n)
  }

  lemma {:induction false} ReadAppended(a: string, b: string, soFar: nat)
    requires AreDigits(a) && AreDigits(b)
    ensures AreDigits(a + b) && ReadNumber(a + b, soFar) == ReadNumber(b, ReadNumber(a, soFar))
  {
    if a == "" {
      assert a + b == b;
    } else {
      ReadAppended(a[1..], b, 10 * soFar + (a[0] as int - '0' as int));
      assert (a + b)[1..] == a[1..] + b && (a + b)[0] == a[0];
    }
  }

  lemma DigitReadsBack(n: nat, soFar: nat)
    requires n < 10
    ensures AreDigits(["0123456789"[n]]) && ReadNumber(["0123456789"[n]], soFar) == 10 * soFar + n
    ensures "0123456789"[n] == '0' <==> n == 0
  {
    var s := "0123456789";
    assert s[0] == '0' && s[1] == '1' && s[2] == '2' && s[3] == '3' && s[4] == '4';
    assert s[5] == '5' && s[6] == '6' && s[7] == '7' && s[8] == '8' && s[9] == '9';
    assert s[n] as int == '0' as int + n;
    assert [s[n]][1..] == "";
  }

  lemma {:induction false} DecimalReadsBack(n: nat)
    ensures AreDigits(Decimal(n)) && ReadNumber(Decimal(n), 0) == n
    ensures |Decimal(n)| >= 1 && (Decimal(n)[0] == '0' <==> n == 0)
    ensures (|Decimal(n)| == 1 <==> n < 10) && (|Decimal(n)| == 2 <==> 10 <= n < 100)
  {
    if n < 10 {
      DigitReadsBack(n, 0);
    } else {
      DecimalReadsBack(n / 10);
      DigitReadsBack(n % 10, n / 10);
      ReadAppended(Decimal(n / 10), ["0123456789"[n % 10]], 0);
    }
  }

  lemma TagReadsBack(n: nat)
    ensures IsTag(PackageTag(n), n)
  {
    DecimalReadsBack(n);
    var tag := PackageTag(n);
    if n < 10 {
      assert tag[1..] == "0" + Decimal(n);
      assert tag[1..][1..] == Decimal(n);
    } else {
      assert tag[1..] == Decimal(n);
    }
  }

  lemma TitlesAreTags(n: nat)
    ensures IsTopRow(Heading(n), n)
  {
    forall i | 1 <= i <= n
      ensures IsTag(Heading(n)[i], i)
    {
      TagReadsBack(i);
    }
  }

  lemma RowTitleHasTag(i: nat, name: string)
    ensures IsRowHead(RowHeading(i, name), i + 1, name)
  {
    TagReadsBack(i + 1);
    assert RowHeading(i, name) == PackageTag(i + 1) + ") " + name;
  }

  function Names(packages: seq<PackageDependencies>): (r: seq<string>)
    ensures |r| == |packages| && forall i :: 0 <= i < |r| ==> r[i] == packages[i].packageName
  {
    seq(|packages|, i requires 0 <= i < |packages| => packages[i].packageName)
  }

  function Dirs(packages: seq<PackageDependencies>): (r: seq<string>)
    ensures |r| == |packages| && forall i :: 0 <= i < |r| ==> r[i] == packages[i].packageDir
  {
    seq(|packages|, i requires 0 <= i < |packages| => packages[i].packageDir)
  }

  /** `index` maps exactly the listed keys, each to its last position. */
  ghost predicate IndexesLast(index: map<string, nat>, keys: seq<string>) {
    && (forall k :: k in index ==> index[k] < |keys| && keys[index[k]] == k)
    && (forall i :: 0 <= i < |keys| ==> keys[i] in index && i <= index[keys[i]])
  }

  lemma IndexAppended(index: map<string, nat>, keys: seq<string>, key: string)
    requires IndexesLast(index, keys)
    ensures IndexesLast(index[key := |keys|], keys + [key])
  {
  }

  class TribitsDependencies {
    var packagesList: seq<PackageDependencies>
    var packagesNameToID: map<string, nat>
    var packagesDirToID: map<string, nat>

    /** Every package carries its position as its ID, and the indexes give the last package with a name or directory. */
    ghost predicate Valid()
      reads this, packagesList
    {
      && (forall i :: 0 <= i < |packagesList| ==> packagesList[i].packageID == i)
      && IndexesLast(packagesNameToID, Names(packagesList))
      && IndexesLast(packagesDirToID, Dirs(packagesList))
    }

    /** What the walk relies on: every listed dependency is a package of this project. */
    ghost predicate DependenciesKnown()
      reads this
    {
      NamesKnown(packagesList, packagesNameToID)
    }

    ghost function Graph(): (g: Graph)
      requires DependenciesKnown()
      reads this
      ensures |g| == |packagesList| && Closed(g)
    {
      GraphOf(packagesList, packagesNameToID)
    }

    /** The state in which the table is filled: `g` is this project's graph, without library cycles. */
    ghost predicate Ready(g: Graph, rank: seq<nat>)
      reads this, packagesList
    {
      Valid() && DependenciesKnown() && g == Graph() && IsRank(g, rank)
    }

    constructor ()
      ensures Valid() && packagesList == []
    {
      packagesList, packagesNameToID, packagesDirToID := [], map[], map[];
    }

    method AddPackageDependencies(packageDeps: PackageDependencies)
      requires Valid() && packageDeps !in packagesList
      modifies this, packageDeps`packageID
      ensures Valid()
      ensures packagesList == old(packagesList) + [packageDeps] && packageDeps.packageID == |old(packagesList)|
      ensures packagesNameToID == old(packagesNameToID)[packageDeps.packageName := |old(packagesList)|]
      ensures packagesDirToID == old(packagesDirToID)[packageDeps.packageDir := |old(packagesList)|]
    {
      IndexAppended(packagesNameToID, Names(packagesList), packageDeps.packageName);
      IndexAppended(packagesDirToID, Dirs(packagesList), packageDeps.packageDir);
      packagesList := packagesList + [packageDeps];
      packageDeps.packageID := |packagesList| - 1;
      packagesNameToID := packagesNameToID[packageDeps.packageName := |packagesList| - 1];
      packagesDirToID := packagesDirToID[packageDeps.packageDir := |packagesList| - 1];
      assert Names(packagesList) == Names(old(packagesList)) + [packageDeps.packageName];
      assert Dirs(packagesList) == Dirs(old(packagesList)) + [packageDeps.packageDir];
    }

    method GetPackageByName(packageName: string) returns (package: PackageDependencies)
      requires Valid() && packageName in packagesNameToID
      ensures package in packagesList && package.packageName == packageName
      ensures package.packageID == packagesNameToID[packageName] && packagesList[package.packageID] == package
    {
      package := packagesList[packagesNameToID[packageName]];
      assert Names(packagesList)[packagesNameToID[packageName]] == packageName;
    }

    method DependencyList(id: nat, c: Category, ghost g: Graph, ghost rank: seq<nat>) returns (depList: seq<string>)
      requires Ready(g, rank) && id < |packagesList| == |g|
      ensures depList == packagesList[id].DepNames(c) && |depList| == |Deps(g[id], c)|
    {
      depList := packagesList[id].DepNames(c);
    }

    /** The ID of the `k`-th package in a dependency list. */
    method LookUpDependency(id: nat, c: Category, k: nat, ghost g: Graph, ghost rank: seq<nat>) returns (d: nat)
      requires Ready(g, rank) && id < |packagesList| == |g| && k < |Deps(g[id], c)| == |packagesList[id].DepNames(c)|
      ensures d == Deps(g[id], c)[k]
    {
      var dep := packagesList[id].DepNames(c)[k];
      assert dep in packagesList[id].DepNames(c);
      var depPackage := GetPackageByName(dep);
      d := depPackage.packageID;
    }

    /** Merges one dependency into a cell. Returns false where the original raises. */
    method UpdateDepCell(packageRow: array<string>, id: nat, stats: DepStats, c: Category, ghost row: nat, ghost cells: Row)
      returns (ok: bool)
      requires RowHolds(packageRow[..], row, cells) && id < |cells|
      modifies packageRow
      ensures WalkLeaves(ok, packageRow[..], row, cells, [Visit(id, VisitLabel(stats, c))])
      ensures packageRow[0] == old(packageRow[0])
    {
      ghost var visit := Visit(id, VisitLabel(stats, c));
      assert visit in [visit];
      assert Apply(cells, [visit]) == cells[id := Some(Join(cells[id], visit.mark))];
      var currentDepName := packageRow[id + 1];
      assert currentDepName == packageRow[..][id + 1];
      var newDepName := NewDepName(stats, c);
      NewDepNameShows(stats, c);
      if currentDepName != "" {
        if cells[id].Some? {
          UpdatePackageDepJoins(cells[id].value, visit.mark);
        }
        var merged := UpdatePackageDep(currentDepName, newDepName);
        if merged.None? {
          return false;
        }
        newDepName := merged.value;
      }
      packageRow[id + 1] := newDepName;
      return true;
    }

    method UpdatePackageDepsCategory(libsOnly: bool, row: nat, id: nat, c: Category, stats: DepStats, table: seq<array<string>>,
                                     ghost g: Graph, ghost rank: seq<nat>, ghost cells: Row)
      returns (ok: bool)
      requires Ready(g, rank)
      requires Closed(g) && IsRank(g, rank) && |rank| == |packagesList| && id < |g| == |packagesList| == |cells| && |table| == |g| + 1 && row < |g|
      requires IsLib(c) || stats.isDirect
      requires RowHolds(table[row + 1][..], row, cells)
      modifies table[row + 1]
      ensures WalkLeaves(ok, table[row + 1][..], row, cells,
                         CategoryVisits(g, rank, libsOnly, id, c, stats, |Deps(g[id], c)|))
      ensures table[row + 1][0] == old(table[row + 1][0])
      decreases stats.isDirect, rank[id], 1
    {
      hide Ready, IsRank, Closed;
      var depList := DependencyList(id, c, g, rank);
      ok := true;
      for k := 0 to |depList|
        invariant ok && WalkLeaves(ok, table[row + 1][..], row, cells, CategoryVisits(g, rank, libsOnly, id, c, stats, k))
        invariant table[row + 1][0] == old(table[row + 1][0])
      {
        ok := UpdateDependency(libsOnly, row, id, c, k, stats, table, g, rank, cells);
        if !ok {
          SelfVisitStays(g, rank, libsOnly, id, c, stats, k + 1, row);
          return;
        }
      }
    }

    /** The loop body for the `k`-th dependency of a list. */
    method UpdateDependency(libsOnly: bool, row: nat, id: nat, c: Category, k: nat, stats: DepStats, table: seq<array<string>>,
                            ghost g: Graph, ghost rank: seq<nat>, ghost cells: Row)
      returns (ok: bool)
      requires Ready(g, rank)
      requires Closed(g) && IsRank(g, rank) && |rank| == |packagesList| && id < |g| == |packagesList| == |cells| && |table| == |g| + 1 && row < |g|
      requires IsLib(c) || stats.isDirect
      requires k < |Deps(g[id], c)| == |packagesList[id].DepNames(c)|
      requires WalkLeaves(true, table[row + 1][..], row, cells, CategoryVisits(g, rank, libsOnly, id, c, stats, k))
      modifies table[row + 1]
      ensures WalkLeaves(ok, table[row + 1][..], row, cells, CategoryVisits(g, rank, libsOnly, id, c, stats, k + 1))
      ensures table[row + 1][0] == old(table[row + 1][0])
      decreases stats.isDirect, rank[id], 0
    {
      hide Ready, IsRank, Closed;
      ghost var before := CategoryVisits(g, rank, libsOnly, id, c, stats, k);
      var d := LookUpDependency(id, c, k, g, rank);
      ghost var step := CategoryStep(g, rank, libsOnly, id, c, stats, k);
      ok := UpdateCellAndBelow(libsOnly, row, d, c, stats, table, g, rank, Apply(cells, before));
      WalkThenWalk(ok, table[row + 1][..], row, cells, before, step);
    }

    /** A dependency's own cell, then everything below it. */
    method UpdateCellAndBelow(libsOnly: bool, row: nat, d: nat, c: Category, stats: DepStats, table: seq<array<string>>,
                            ghost g: Graph, ghost rank: seq<nat>, ghost cells: Row)
      returns (ok: bool)
      requires Ready(g, rank)
      requires Closed(g) && IsRank(g, rank) && |rank| == |packagesList| && d < |g| == |packagesList| == |cells| && |table| == |g| + 1 && row < |g|
      requires RowHolds(table[row + 1][..], row, cells)
      modifies table[row + 1]
      ensures WalkLeaves(ok, table[row + 1][..], row, cells,
                         [Visit(d, VisitLabel(stats, c))] + Visits(g, rank, libsOnly, d, ChildStats(stats, c)))
      ensures table[row + 1][0] == old(table[row + 1][0])
      decreases false, rank[d], 4
    {
      hide Ready, IsRank, Closed;
      ghost var visit := [Visit(d, VisitLabel(stats, c))];
      ghost var below := Visits(g, rank, libsOnly, d, ChildStats(stats, c));
      VisitedAppend(visit, below, row);
      ok := UpdateDepCell(table[row + 1], d, stats, c, row, cells);
      if ok {
        ok := UpdatePackageDeps(libsOnly, row, d, ChildStats(stats, c), table, g, rank, Apply(cells, visit));
        WalkThenWalk(ok, table[row + 1][..], row, cells, visit, below);
      }
    }

    method UpdateLibDeps(libsOnly: bool, row: nat, id: nat, stats: DepStats, table: seq<array<string>>,
                         ghost g: Graph, ghost rank: seq<nat>, ghost cells: Row)
      returns (ok: bool)
      requires Ready(g, rank)
      requires Closed(g) && IsRank(g, rank) && |rank| == |packagesList| && id < |g| == |packagesList| == |cells| && |table| == |g| + 1 && row < |g|
      requires RowHolds(table[row + 1][..], row, cells)
      modifies table[row + 1]
      ensures WalkLeaves(ok, table[row + 1][..], row, cells, LibVisits(g, rank, libsOnly, id, stats))
      ensures table[row + 1][0] == old(table[row + 1][0])
      decreases stats.isDirect, rank[id], 2
    {
      hide Ready, IsRank, Closed;
      ghost var required := CategoryVisits(g, rank, libsOnly, id, LibRequired, stats, |Deps(g[id], LibRequired)|);
      ghost var optional := CategoryVisits(g, rank, libsOnly, id, LibOptional, stats, |Deps(g[id], LibOptional)|);
      ok := UpdatePackageDepsCategory(libsOnly, row, id, LibRequired, stats, table, g, rank, cells);
      VisitedAppend(required, optional, row);
      if ok {
        ok := UpdatePackageDepsCategory(libsOnly, row, id, LibOptional, stats, table, g, rank, Apply(cells, required));
        WalkThenWalk(ok, table[row + 1][..], row, cells, required, optional);
      }
    }

    method UpdateTestDeps(row: nat, id: nat, stats: DepStats, table: seq<array<string>>,
                          ghost g: Graph, ghost rank: seq<nat>, ghost cells: Row)
      returns (ok: bool)
      requires Ready(g, rank)
      requires Closed(g) && IsRank(g, rank) && |rank| == |packagesList| && id < |g| == |packagesList| == |cells| && |table| == |g| + 1 && row < |g|
      requires stats.isDirect
      requires RowHolds(table[row + 1][..], row, cells)
      modifies table[row + 1]
      ensures WalkLeaves(ok, table[row + 1][..], row, cells, TestVisits(g, rank, id, stats))
      ensures table[row + 1][0] == old(table[row + 1][0])
      decreases stats.isDirect, rank[id], 2
    {
      hide Ready, IsRank, Closed;
      var libDepStats := TestStats(stats);
      ghost var required := CategoryVisits(g, rank, false, id, TestRequired, libDepStats, |Deps(g[id], TestRequired)|);
      ghost var optional := CategoryVisits(g, rank, false, id, TestOptional, libDepStats, |Deps(g[id], TestOptional)|);
      ok := UpdatePackageDepsCategory(false, row, id, TestRequired, libDepStats, table, g, rank, cells);
      VisitedAppend(required, optional, row);
      if ok {
        ok := UpdatePackageDepsCategory(false, row, id, TestOptional, libDepStats, table, g, rank, Apply(cells, required));
        WalkThenWalk(ok, table[row + 1][..], row, cells, required, optional);
      }
    }

    method UpdatePackageDeps(libsOnly: bool, row: nat, id: nat, stats: DepStats, table: seq<array<string>>,
                             ghost g: Graph, ghost rank: seq<nat>, ghost cells: Row)
      returns (ok: bool)
      requires Ready(g, rank)
      requires Closed(g) && IsRank(g, rank) && |rank| == |packagesList| && id < |g| == |packagesList| == |cells| && |table| == |g| + 1 && row < |g|
      requires RowHolds(table[row + 1][..], row, cells)
      modifies table[row + 1]
      ensures WalkLeaves(ok, table[row + 1][..], row, cells, Visits(g, rank, libsOnly, id, stats))
      ensures table[row + 1][0] == old(table[row + 1][0])
      decreases stats.isDirect, rank[id], 3
    {
      hide Ready, IsRank, Closed;
      ok := UpdateLibDeps(libsOnly, row, id, stats, table, g, rank, cells);
      ghost var libs := LibVisits(g, rank, libsOnly, id, stats);
      if !libsOnly && stats.isDirect {
        ghost var tests := TestVisits(g, rank, id, stats);
        VisitedAppend(libs, tests, row);
        if ok {
          ok := UpdateTestDeps(row, id, stats, table, g, rank, Apply(cells, libs));
          WalkThenWalk(ok, table[row + 1][..], row, cells, libs, tests);
        }
      } else {
        assert libs + [] == libs;
      }
    }

    lemma GetReady() returns (rank: seq<nat>)
      requires Valid() && DependenciesKnown() && Acyclic(Graph())
      ensures Ready(Graph(), rank) && IsRank(Graph(), rank) && |rank| == |packagesList|
    {
      rank :| IsRank(Graph(), rank);
    }

    method NewRow(heading: string, numPackages: nat) returns (row: array<string>)
      ensures fresh(row) && row.Length == numPackages + 1 && row[0] == heading
      ensures IsBlankRow(row[..], numPackages)
    {
      row := new string[numPackages + 1](_ => "");
      row[0] := heading;
    }

    /** The table without labels: the heading row and one row per package. */
    method NewTable(numPackages: nat) returns (table: seq<array<string>>)
      requires numPackages == |packagesList|
      ensures |table| == numPackages + 1 && IsTopRow(table[0][..], numPackages)
      ensures forall i :: 0 <= i <= numPackages ==> fresh(table[i]) && table[i].Length == numPackages + 1
      ensures forall i, j :: 0 <= i < j <= numPackages ==> table[i] != table[j]
      ensures forall i :: 1 <= i <= numPackages ==>
                IsRowHead(table[i][0], i, packagesList[i - 1].packageName) && IsBlankRow(table[i][..], numPackages)
    {
      hide IsTopRow, IsRowHead, RowHeading, IsBlankRow, Heading;
      TitlesAreTags(numPackages);
      var heading := Heading(numPackages);
      var topRow := new string[numPackages + 1](i requires 0 <= i <= numPackages => heading[i]);
      table := [topRow];
      for i := 0 to numPackages
        invariant |table| == i + 1 && table[0] == topRow && topRow[..] == heading
        invariant forall k :: 0 <= k <= i ==> fresh(table[k]) && table[k].Length == numPackages + 1
        invariant forall k, m :: 0 <= k < m <= i ==> table[k] != table[m]
        invariant forall k :: 1 <= k <= i ==>
                    IsRowHead(table[k][0], k, packagesList[k - 1].packageName) && IsBlankRow(table[k][..], numPackages)
      {
        RowTitleHasTag(i, packagesList[i].packageName);
        var row := NewRow(RowHeading(i, packagesList[i].packageName), numPackages);
        table := table + [row];
      }
    }

    /** Builds the raw table. It raises (`ok` is false) exactly when some package depends on itself through a chain,
        which takes a test dependency; otherwise every cell is the strongest label over all chains. */
    method CreateRawTable(libsOnly: bool) returns (ok: bool, table: seq<array<string>>)
      requires Valid() && DependenciesKnown() && Acyclic(Graph())
      ensures ok <==> NoSelfChain(Graph(), libsOnly)
      ensures |table| == |packagesList| + 1 && IsTopRow(table[0][..], |packagesList|)
      ensures forall i :: 1 <= i <= |packagesList| ==>
                table[i].Length == |packagesList| + 1 && IsRowHead(table[i][0], i, packagesList[i - 1].packageName)
      ensures ok ==> forall i :: 1 <= i <= |packagesList| ==> IsTableRow(Graph(), libsOnly, i - 1, table[i][..])
    {
      hide IsTableRow, IsRank, IsBlankRow, NoSelfChain, Acyclic, Valid, Ready, NamesKnown, Closed, IsTopRow, IsRowHead;
      ghost var g := Graph();
      ghost var rank := GetReady();
      table := NewTable(|packagesList|);
      ok := FillRows(libsOnly, table, g, rank);
    }

    /** Fills the rows of a table without labels, one after the other, until one raises. */
    method FillRows(libsOnly: bool, table: seq<array<string>>, ghost g: Graph, ghost rank: seq<nat>) returns (ok: bool)
      requires Ready(g, rank) && Closed(g) && IsRank(g, rank) && |rank| == |packagesList| == |g| && |table| == |g| + 1
      requires forall i :: 0 <= i <= |g| ==> table[i].Length == |g| + 1
      requires forall i, j :: 0 <= i < j <= |g| ==> table[i] != table[j]
      requires forall i :: 1 <= i <= |g| ==> IsBlankRow(table[i][..], |g|)
      modifies table
      ensures table[0][..] == old(table[0][..])
      ensures forall i :: 1 <= i <= |g| ==> table[i][0] == old(table[i][0])
      ensures ok <==> NoSelfChain(g, libsOnly)
      ensures ok ==> forall i :: 1 <= i <= |g| ==> IsTableRow(g, libsOnly, i - 1, table[i][..])
    {
      hide IsTableRow, IsRank, IsBlankRow, NoSelfChain, NoSelfChainBelow, SelfChainFrom, Valid, Ready, NamesKnown, Closed;
      NoSelfChainStart(g, libsOnly);
      for i := 0 to |packagesList|
        invariant table[0][..] == old(table[0][..])
        invariant forall k :: 1 <= k <= |g| ==> table[k][0] == old(table[k][0])
        invariant forall k :: i < k <= |g| ==> IsBlankRow(table[k][..], |g|)
        invariant NoSelfChainBelow(g, libsOnly, i)
        invariant forall k :: 1 <= k <= i ==> IsTableRow(g, libsOnly, k - 1, table[k][..])
      {
        NoSelfChainStep(g, libsOnly, i);
        ok := FillRow(libsOnly, i, table, g, rank);
        if !ok {
          return;
        }
      }
      ok := true;
    }

    method FillRow(libsOnly: bool, i: nat, table: seq<array<string>>, ghost g: Graph, ghost rank: seq<nat>) returns (ok: bool)
      requires Ready(g, rank)
      requires Closed(g) && IsRank(g, rank) && |rank| == |packagesList| == |g| && i < |g| && |table| == |g| + 1
      requires IsBlankRow(table[i + 1][..], |g|)
      modifies table[i + 1]
      ensures table[i + 1][0] == old(table[i + 1][0])
      ensures ok <==> !SelfChainFrom(g, libsOnly, i)
      ensures ok ==> IsTableRow(g, libsOnly, i, table[i + 1][..])
    {
      hide Ready, IsRank, Closed, IsTableText;
      table[i + 1][i + 1] := "X";
      ok := UpdatePackageDeps(libsOnly, i, i, TOP_STATS, table, g, rank, NoLabels(|g|));
      WalkLeavesTableTexts(g, rank, libsOnly, i, ok, table[i + 1][..]);
    }
  }

  ghost predicate NoSelfChainBelow(g: Graph, libsOnly: bool, n: nat) {
    forall i: nat :: i < n ==> !SelfChainFrom(g, libsOnly, i)
  }

  lemma NoSelfChainStep(g: Graph, libsOnly: bool, i: nat)
    requires NoSelfChainBelow(g, libsOnly, i)
    ensures NoSelfChainBelow(g, libsOnly, i + 1) <==> !SelfChainFrom(g, libsOnly, i)
    ensures SelfChainFrom(g, libsOnly, i) ==> !NoSelfChain(g, libsOnly)
  {
  }

  lemma NoSelfChainStart(g: Graph, libsOnly: bool)
    ensures NoSelfChainBelow(g, libsOnly, 0)
    ensures NoSelfChainBelow(g, libsOnly, |g|) ==> NoSelfChain(g, libsOnly)
  {
    if !NoSelfChain(g, libsOnly) {
      var p: nat, chain :| IsChain(g, libsOnly, p, chain) && End(chain) == p;
      assert p < |g| && SelfChainFrom(g, libsOnly, p);
    }
  }

  /** The visits that the `k`-th entry of a dependency list adds. */
  lemma CategoryStep(g: Graph, rank: seq<nat>, libsOnly: bool, p: nat, c: Category, stats: DepStats, k: nat) returns (step: seq<Visit>)
    requires Closed(g) && IsRank(g, rank) && p < |g| && k < |Deps(g[p], c)|
    requires IsLib(c) || stats.isDirect
    ensures var d := Deps(g[p], c)[k];
            && d < |g| && (!stats.isDirect ==> rank[d] < rank[p])
            && step == [Visit(d, VisitLabel(stats, c))] + Visits(g, rank, libsOnly, d, ChildStats(stats, c))
    ensures CategoryVisits(g, rank, libsOnly, p, c, stats, k + 1) == CategoryVisits(g, rank, libsOnly, p, c, stats, k) + step
  {
    var d := Deps(g[p], c)[k];
    assert d in Deps(g[p], c);
    step := [Visit(d, VisitLabel(stats, c))] + Visits(g, rank, libsOnly, d, ChildStats(stats, c));
  }

  /** A visit to the row's own package among the first `k` entries is among all of them. */
  lemma SelfVisitStays(g: Graph, rank: seq<nat>, libsOnly: bool, p: nat, c: Category, stats: DepStats, k: nat, row: nat)
    requires Closed(g) && IsRank(g, rank) && p < |g| && k <= |Deps(g[p], c)|
    requires IsLib(c) || stats.isDirect
    requires Visited(CategoryVisits(g, rank, libsOnly, p, c, stats, k), row)
    ensures Visited(CategoryVisits(g, rank, libsOnly, p, c, stats, |Deps(g[p], c)|), row)
  {
    CategoryVisitsGrow(g, rank, libsOnly, p, c, stats, k, |Deps(g[p], c)|);
  }
}
