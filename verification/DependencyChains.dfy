/** Package graphs, dependency chains, and the proof that the walk over a package's
    dependency lists visits exactly the chains that start at the package. */
module DependencyChains {
  import opened Wrappers
  import opened DependencyLabels

  /** A package with its dependency names resolved to package IDs. */
  datatype Node = Node(libRequired: seq<nat>, libOptional: seq<nat>, testRequired: seq<nat>, testOptional: seq<nat>)

  type Graph = seq<Node>

  function Deps(n: Node, c: Category): seq<nat> {
    match c
    case LibRequired => n.libRequired
    case LibOptional => n.libOptional
    case TestRequired => n.testRequired
    case TestOptional => n.testOptional
  }

  ghost predicate Closed(g: Graph) {
    forall p, c, d :: 0 <= p < |g| && d in Deps(g[p], c) ==> d < |g|
  }

  /** `rank` decreases along every library dependency. */
  ghost predicate IsRank(g: Graph, rank: seq<nat>) {
    |rank| == |g| &&
    forall p, c, d :: 0 <= p < |g| && IsLib(c) && d in Deps(g[p], c) ==> d < |g| && rank[d] < rank[p]
  }

  /** The library dependencies have no cycle. Test dependencies are not restricted. */
  ghost predicate Acyclic(g: Graph) {
    exists rank: seq<nat> :: IsRank(g, rank)
  }

  // ---------- chains ----------

  datatype Edge = Edge(to: nat, cat: Category)

  predicate IsEdge(g: Graph, p: nat, e: Edge) {
    p < |g| && e.to in Deps(g[p], e.cat)
  }

  predicate IsLibPath(g: Graph, p: nat, path: seq<Edge>)
    decreases |path|
  {
    path == [] || (IsEdge(g, p, path[0]) && IsLib(path[0].cat) && IsLibPath(g, path[0].to, path[1..]))
  }

  /** A dependency chain from `p`: any first edge (library only if `libsOnly`), then library edges. */
  predicate IsChain(g: Graph, libsOnly: bool, p: nat, chain: seq<Edge>) {
    && chain != []
    && IsEdge(g, p, chain[0])
    && (libsOnly ==> IsLib(chain[0].cat))
    && IsLibPath(g, chain[0].to, chain[1..])
  }

  function End(chain: seq<Edge>): nat
    requires chain != []
  {
    chain[|chain| - 1].to
  }

  predicate AllRequired(chain: seq<Edge>) {
    forall e :: e in chain ==> IsRequired(e.cat)
  }

  function ChainLabel(chain: seq<Edge>): Label
    requires chain != []
  {
    Label(AllRequired(chain), |chain| == 1, IsLib(chain[0].cat))
  }

  /** No package depends on itself through a chain. */
  ghost predicate NoSelfChain(g: Graph, libsOnly: bool) {
    forall p, chain :: IsChain(g, libsOnly, p, chain) ==> End(chain) != p
  }

  /** `cell` is the text of the strongest label over all chains from `i` to `j`, "" if there is none. */
  ghost predicate IsStrongestCell(g: Graph, libsOnly: bool, i: nat, j: nat, cell: Option<Label>) {
    && (forall chain :: IsChain(g, libsOnly, i, chain) && End(chain) == j ==>
          cell.Some? && Weaker(ChainLabel(chain), cell.value))
    && (cell.Some? ==> exists chain :: IsChain(g, libsOnly, i, chain) && End(chain) == j && ChainLabel(chain) == cell.value)
  }

  // ---------- the walk, as the list of cells it touches ----------

  datatype Visit = Visit(to: nat, mark: Label)

  function ChildStats(stats: DepStats, c: Category): DepStats {
    DepStats(false, stats.isRequired && IsRequired(c), stats.isTestDepChain)
  }

  function TestStats(stats: DepStats): DepStats {
    DepStats(true, stats.isRequired, true)
  }

  const TOP_STATS := DepStats(true, true, false)

  /** The visits that one call of updatePackageDeps makes, in order. */
  ghost function Visits(g: Graph, rank: seq<nat>, libsOnly: bool, p: nat, stats: DepStats): seq<Visit>
    requires Closed(g) && IsRank(g, rank) && p < |g|
    decreases stats.isDirect, rank[p], 1, 0
  {
    LibVisits(g, rank, libsOnly, p, stats) +
    (if !libsOnly && stats.isDirect then TestVisits(g, rank, p, stats) else [])
  }

  ghost function LibVisits(g: Graph, rank: seq<nat>, libsOnly: bool, p: nat, stats: DepStats): seq<Visit>
    requires Closed(g) && IsRank(g, rank) && p < |g|
    decreases stats.isDirect, rank[p], 0, |Deps(g[p], LibRequired)| + |Deps(g[p], LibOptional)| + 1
  {
    CategoryVisits(g, rank, libsOnly, p, LibRequired, stats, |Deps(g[p], LibRequired)|) +
    CategoryVisits(g, rank, libsOnly, p, LibOptional, stats, |Deps(g[p], LibOptional)|)
  }

  ghost function TestVisits(g: Graph, rank: seq<nat>, p: nat, stats: DepStats): seq<Visit>
    requires Closed(g) && IsRank(g, rank) && p < |g| && stats.isDirect
    decreases true, rank[p], 0, |Deps(g[p], TestRequired)| + |Deps(g[p], TestOptional)| + 1
  {
    CategoryVisits(g, rank, false, p, TestRequired, TestStats(stats), |Deps(g[p], TestRequired)|) +
    CategoryVisits(g, rank, false, p, TestOptional, TestStats(stats), |Deps(g[p], TestOptional)|)
  }

  /** The visits made for the first `k` entries of one dependency list. */
  ghost function CategoryVisits(g: Graph, rank: seq<nat>, libsOnly: bool, p: nat, c: Category, stats: DepStats, k: nat): seq<Visit>
    requires Closed(g) && IsRank(g, rank) && p < |g| && k <= |Deps(g[p], c)|
    requires IsLib(c) || stats.isDirect
    decreases stats.isDirect, rank[p], 0, k
  {
    if k == 0 then []
    else
      var d := Deps(g[p], c)[k - 1];
      assert d in Deps(g[p], c);
      CategoryVisits(g, rank, libsOnly, p, c, stats, k - 1) +
      [Visit(d, VisitLabel(stats, c))] +
      Visits(g, rank, libsOnly, d, ChildStats(stats, c))
  }

  // ---------- visits are chains ----------

  /** A chain that a walk in state `stats` may follow from `p`. */
  predicate IsWalk(g: Graph, libsOnly: bool, p: nat, stats: DepStats, chain: seq<Edge>) {
    && IsChain(g, libsOnly, p, chain)
    && (stats.isDirect || IsLib(chain[0].cat))
  }

  /** The label of such a chain, continued from `stats`. */
  function WalkLabel(stats: DepStats, chain: seq<Edge>): Label
    requires chain != []
  {
    Label(stats.isRequired && AllRequired(chain), stats.isDirect && |chain| == 1,
          IsLib(chain[0].cat) && !stats.isTestDepChain)
  }

  /** Every visit comes from a chain with its end and its label. */
  lemma VisitHasChain(g: Graph, rank: seq<nat>, libsOnly: bool, p: nat, stats: DepStats, v: Visit) returns (chain: seq<Edge>)
    requires Closed(g) && IsRank(g, rank) && p < |g|
    requires v in Visits(g, rank, libsOnly, p, stats)
    ensures IsWalk(g, libsOnly, p, stats, chain) && End(chain) == v.to && WalkLabel(stats, chain) == v.mark
    decreases stats.isDirect, rank[p], 1, 0
  {
    var node := g[p];
    if v in CategoryVisits(g, rank, libsOnly, p, LibRequired, stats, |Deps(node, LibRequired)|) {
      chain := CategoryVisitHasChain(g, rank, libsOnly, p, LibRequired, stats, |Deps(node, LibRequired)|, v);
    } else if v in CategoryVisits(g, rank, libsOnly, p, LibOptional, stats, |Deps(node, LibOptional)|) {
      chain := CategoryVisitHasChain(g, rank, libsOnly, p, LibOptional, stats, |Deps(node, LibOptional)|, v);
    } else if v in CategoryVisits(g, rank, false, p, TestRequired, TestStats(stats), |Deps(node, TestRequired)|) {
      chain := CategoryVisitHasChain(g, rank, false, p, TestRequired, TestStats(stats), |Deps(node, TestRequired)|, v);
    } else {
      chain := CategoryVisitHasChain(g, rank, false, p, TestOptional, TestStats(stats), |Deps(node, TestOptional)|, v);
    }
  }

  lemma CategoryVisitHasChain(g: Graph, rank: seq<nat>, libsOnly: bool, p: nat, c: Category, stats: DepStats, k: nat, v: Visit)
    returns (chain: seq<Edge>)
    requires Closed(g) && IsRank(g, rank) && p < |g| && k <= |Deps(g[p], c)|
    requires IsLib(c) || stats.isDirect
    requires !IsLib(c) ==> !libsOnly && stats.isTestDepChain
    requires v in CategoryVisits(g, rank, libsOnly, p, c, stats, k)
    ensures IsWalk(g, libsOnly, p, stats, chain) && chain[0].cat == c
    ensures End(chain) == v.to && WalkLabel(stats, chain) == v.mark
    decreases stats.isDirect, rank[p], 0, k
  {
    var d := Deps(g[p], c)[k - 1];
    assert d in Deps(g[p], c);
    if v in CategoryVisits(g, rank, libsOnly, p, c, stats, k - 1) {
      chain := CategoryVisitHasChain(g, rank, libsOnly, p, c, stats, k - 1, v);
    } else if v == Visit(d, VisitLabel(stats, c)) {
      chain := [Edge(d, c)];
      assert chain[0] in chain;
    } else {
      var child := ChildStats(stats, c);
      var rest := VisitHasChain(g, rank, libsOnly, d, child, v);
      chain := Prepend(Edge(d, c), rest);
    }
  }

  function Prepend(e: Edge, rest: seq<Edge>): (chain: seq<Edge>)
    requires rest != []
    ensures chain != [] && chain[1..] == rest && End(chain) == End(rest)
    ensures AllRequired(chain) <==> IsRequired(e.cat) && AllRequired(rest)
  {
    var chain := [e] + rest;
    assert forall x :: x in chain <==> x == e || x in rest;
    chain
  }

  /** Every chain is visited, with its end and its label. */
  lemma ChainIsVisited(g: Graph, rank: seq<nat>, libsOnly: bool, p: nat, stats: DepStats, chain: seq<Edge>)
    requires Closed(g) && IsRank(g, rank)
    requires IsWalk(g, libsOnly, p, stats, chain)
    ensures Visit(End(chain), WalkLabel(stats, chain)) in Visits(g, rank, libsOnly, p, stats)
    decreases |chain|
  {
    var c := chain[0].cat;
    var k :| 0 <= k < |Deps(g[p], c)| && Deps(g[p], c)[k] == chain[0].to;
    if IsLib(c) {
      CategoryChainIsVisited(g, rank, libsOnly, p, stats, chain, k);
    } else {
      CategoryChainIsVisited(g, rank, false, p, TestStats(stats), chain, k);
    }
  }

  lemma CategoryChainIsVisited(g: Graph, rank: seq<nat>, libsOnly: bool, p: nat, stats: DepStats, chain: seq<Edge>, k: nat)
    requires Closed(g) && IsRank(g, rank)
    requires IsWalk(g, libsOnly, p, stats, chain)
    requires !IsLib(chain[0].cat) ==> stats.isTestDepChain
    requires k < |Deps(g[p], chain[0].cat)| && Deps(g[p], chain[0].cat)[k] == chain[0].to
    ensures Visit(End(chain), WalkLabel(stats, chain)) in
            CategoryVisits(g, rank, libsOnly, p, chain[0].cat, stats, |Deps(g[p], chain[0].cat)|)
    decreases |chain|, 0
  {
    var c, d, rest := chain[0].cat, chain[0].to, chain[1..];
    var visit := Visit(End(chain), WalkLabel(stats, chain));
    var upToK := CategoryVisits(g, rank, libsOnly, p, c, stats, k + 1);
    if rest == [] {
      assert chain == [chain[0]];
      assert visit == Visit(d, VisitLabel(stats, c));
    } else {
      assert chain == Prepend(chain[0], rest);
      var child := ChildStats(stats, c);
      ChainIsVisited(g, rank, libsOnly, d, child, rest);
      assert visit == Visit(End(rest), WalkLabel(child, rest));
    }
    assert visit in upToK;
    CategoryVisitsGrow(g, rank, libsOnly, p, c, stats, k + 1, |Deps(g[p], c)|);
  }

  lemma CategoryVisitsGrow(g: Graph, rank: seq<nat>, libsOnly: bool, p: nat, c: Category, stats: DepStats, k: nat, n: nat)
    requires Closed(g) && IsRank(g, rank) && p < |g| && k <= n <= |Deps(g[p], c)|
    requires IsLib(c) || stats.isDirect
    ensures CategoryVisits(g, rank, libsOnly, p, c, stats, k) <= CategoryVisits(g, rank, libsOnly, p, c, stats, n)
    decreases n
  {
    if k < n {
      CategoryVisitsGrow(g, rank, libsOnly, p, c, stats, k, n - 1);
    }
  }
}
