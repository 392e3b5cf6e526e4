/** Rows of the dependency table as values: folding visits into a row gives the strongest
    label over all chains, and what follows from that for whole tables. */
module DependencyRows {
  import opened Wrappers
  import opened DependencyLabels
  import opened DependencyChains

  type Row = seq<Option<Label>>

  /** The row after the given visits have been merged into it, in order. */
  function Apply(cells: Row, visits: seq<Visit>): (r: Row)
    ensures |r| == |cells|
  {
    if visits == [] then cells
    else
      var v := visits[|visits| - 1];
      var before := Apply(cells, visits[..|visits| - 1]);
      if v.to < |cells| then before[v.to := Some(Join(before[v.to], v.mark))] else before
  }

  lemma ApplyAppend(cells: Row, a: seq<Visit>, b: seq<Visit>)
    ensures Apply(cells, a + b) == Apply(Apply(cells, a), b)
  {
    if b == [] {
      assert a + b == a;
    } else {
      var init := b[..|b| - 1];
      assert (a + b)[..|a + b| - 1] == a + init;
      ApplyAppend(cells, a, init);
    }
  }

  /** A cell ends with its own label or one of the visits', and it is at least as strong as all of them. */
  lemma {:induction false} ApplyIsMaximum(cells: Row, visits: seq<Visit>, j: nat)
    requires j < |cells|
    ensures var cell := Apply(cells, visits)[j];
            && (cell == cells[j] || exists v :: v in visits && v.to == j && cell == Some(v.mark))
            && (cells[j].Some? ==> cell.Some? && Weaker(cells[j].value, cell.value))
            && (forall v :: v in visits && v.to == j ==> cell.Some? && Weaker(v.mark, cell.value))
  {
    if visits != [] {
      var init, last := visits[..|visits| - 1], visits[|visits| - 1];
      assert visits == init + [last];
      ApplyIsMaximum(cells, init, j);
      assert forall v :: v in visits <==> v in init || v == last;
    }
  }

  /** Starting from an empty row, the walk from package `i` leaves the strongest chain label in every cell. */
  lemma WalkGivesStrongest(g: Graph, rank: seq<nat>, libsOnly: bool, i: nat, empty: Row, j: nat)
    requires Closed(g) && IsRank(g, rank) && i < |g| && j < |g|
    requires |empty| == |g| && empty[j] == None
    ensures IsStrongestCell(g, libsOnly, i, j, Apply(empty, Visits(g, rank, libsOnly, i, TOP_STATS))[j])
  {
    var visits := Visits(g, rank, libsOnly, i, TOP_STATS);
    ApplyIsMaximum(empty, visits, j);
    var cell := Apply(empty, visits)[j];
    forall chain | IsChain(g, libsOnly, i, chain) && End(chain) == j
      ensures cell.Some? && Weaker(ChainLabel(chain), cell.value)
    {
      ChainIsVisited(g, rank, libsOnly, i, TOP_STATS, chain);
    }
    if cell.Some? {
      var v :| v in visits && v.to == j && cell == Some(v.mark);
      var chain := VisitHasChain(g, rank, libsOnly, i, TOP_STATS, v);
      assert ChainLabel(chain) == v.mark;
    }
  }

  /** Visiting a package's own cell means that it depends on itself through a chain. */
  lemma SelfVisitIffSelfChain(g: Graph, rank: seq<nat>, libsOnly: bool, i: nat)
    requires Closed(g) && IsRank(g, rank) && i < |g|
    ensures (exists v :: v in Visits(g, rank, libsOnly, i, TOP_STATS) && v.to == i)
       <==> (exists chain :: IsChain(g, libsOnly, i, chain) && End(chain) == i)
  {
    if v :| v in Visits(g, rank, libsOnly, i, TOP_STATS) && v.to == i {
      var chain := VisitHasChain(g, rank, libsOnly, i, TOP_STATS, v);
      assert IsChain(g, libsOnly, i, chain) && End(chain) == i;
    }
    if chain :| IsChain(g, libsOnly, i, chain) && End(chain) == i {
      ChainIsVisited(g, rank, libsOnly, i, TOP_STATS, chain);
    }
  }

  // ---------- consequences for whole tables ----------

  /** The specification fixes every cell. */
  lemma StrongestCellIsUnique(g: Graph, libsOnly: bool, i: nat, j: nat, a: Option<Label>, b: Option<Label>)
    requires IsStrongestCell(g, libsOnly, i, j, a) && IsStrongestCell(g, libsOnly, i, j, b)
    ensures a == b
  {
    if a.Some? && b.Some? {
      WeakerIsTotalOrder(a.value, b.value, a.value);
    }
  }

  /** The two graphs have the same dependencies, listed in any order and any number of times. */
  ghost predicate SameDependencies(g: Graph, h: Graph) {
    |g| == |h| && forall p, c, d :: 0 <= p < |g| ==> (d in Deps(g[p], c) <==> d in Deps(h[p], c))
  }

  lemma SameLibPaths(g: Graph, h: Graph, p: nat, path: seq<Edge>)
    requires SameDependencies(g, h)
    ensures IsLibPath(g, p, path) <==> IsLibPath(h, p, path)
    decreases |path|
  {
    if path != [] {
      SameLibPaths(g, h, path[0].to, path[1..]);
    }
  }

  /** Permuting or repeating entries of the dependency lists leaves every cell unchanged. */
  lemma ListOrderIsIrrelevant(g: Graph, h: Graph, libsOnly: bool, i: nat, j: nat, a: Option<Label>, b: Option<Label>)
    requires SameDependencies(g, h)
    requires IsStrongestCell(g, libsOnly, i, j, a) && IsStrongestCell(h, libsOnly, i, j, b)
    ensures a == b
  {
    forall chain: seq<Edge> | chain != []
      ensures IsChain(g, libsOnly, i, chain) <==> IsChain(h, libsOnly, i, chain)
    {
      SameLibPaths(g, h, chain[0].to, chain[1..]);
    }
    assert IsStrongestCell(g, libsOnly, i, j, b);
    StrongestCellIsUnique(g, libsOnly, i, j, a, b);
  }

  /** A full-table cell is at least as strong as the libs-only cell, and equal to it when it carries a library label. */
  lemma FullTableRefinesLibsOnlyTable(g: Graph, i: nat, j: nat, full: Option<Label>, libs: Option<Label>)
    requires IsStrongestCell(g, false, i, j, full) && IsStrongestCell(g, true, i, j, libs)
    ensures libs.Some? ==> full.Some? && Weaker(libs.value, full.value)
    ensures full.Some? && full.value.lib ==> full == libs
    ensures libs == None <==> forall chain: seq<Edge> :: IsChain(g, false, i, chain) && End(chain) == j ==> !IsLib(chain[0].cat)
  {
    assert forall chain: seq<Edge> :: IsChain(g, true, i, chain) <==> IsChain(g, false, i, chain) && IsLib(chain[0].cat);
    if full.Some? && full.value.lib {
      WeakerIsTotalOrder(full.value, libs.value, full.value);
    }
  }

  // ---------- when the walk comes back to its own package ----------

  lemma RankFallsAlongPath(g: Graph, rank: seq<nat>, p: nat, path: seq<Edge>)
    requires IsRank(g, rank) && p < |g| && path != [] && IsLibPath(g, p, path)
    ensures End(path) < |g| && rank[End(path)] < rank[p]
    decreases |path|
  {
    if |path| > 1 {
      RankFallsAlongPath(g, rank, path[0].to, path[1..]);
    }
  }

  /** The libs-only table of an acyclic project never raises. */
  lemma LibsOnlyHasNoSelfChain(g: Graph)
    requires Acyclic(g)
    ensures NoSelfChain(g, true)
  {
    var rank :| IsRank(g, rank);
    forall p: nat, chain | IsChain(g, true, p, chain)
      ensures End(chain) != p
    {
      RankFallsAlongPath(g, rank, p, chain);
    }
  }

  /** Nor does the full table, if the packages can be ordered so that test dependencies go backwards too. */
  lemma FullyOrderedHasNoSelfChain(g: Graph, rank: seq<nat>)
    requires IsRank(g, rank)
    requires forall p, c, d :: 0 <= p < |g| && d in Deps(g[p], c) ==> d < |g| && rank[d] < rank[p]
    ensures NoSelfChain(g, false)
  {
    forall p: nat, chain: seq<Edge> | IsChain(g, false, p, chain)
      ensures End(chain) != p
    {
      assert IsEdge(g, p, chain[0]) && rank[chain[0].to] < rank[p];
      if |chain| > 1 {
        RankFallsAlongPath(g, rank, chain[0].to, chain[1..]);
      }
    }
  }

  /** A test dependency that leads back through libraries does make it raise, although the libraries are acyclic. */
  lemma TestCycleHasSelfChain()
    ensures var g := [Node([], [], [1], []), Node([0], [], [], [])];
            Acyclic(g) && !NoSelfChain(g, false)
  {
    var g := [Node([], [], [1], []), Node([0], [], [], [])];
    assert IsRank(g, [0, 1]);
    var chain := [Edge(1, TestRequired), Edge(0, LibRequired)];
    assert chain[1..] == [chain[1]] && chain[1..][1..] == [];
    assert IsChain(g, false, 0, chain) && End(chain) == 0;
  }
}
