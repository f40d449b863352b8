/** Total and ideal district population: the loop over node indices
    0 .. len(nodes)-1 that adds up each node's POPULATION attribute, and the
    division of the total by the number of districts. */
module Population {
  import opened Outcomes

  /** Number of districts of the congressional plan the script is configured for. */
  const NUM_DIST: nat := 14

  /** The POPULATION attribute of a graph, keyed by node id. */
  type NodePopulation = map<int, int>

  /** Every index 0 .. n-1 is a node id. */
  predicate Indexed(population: NodePopulation, n: nat)
  {
    forall v :: 0 <= v < n ==> v in population
  }

  /** Sum of POPULATION over the nodes 0 .. n-1. */
  function Total(population: NodePopulation, n: nat): int
    requires Indexed(population, n)
  {
    if n == 0 then 0 else Total(population, n - 1) + population[n - 1]
  }

  /** The accumulation loop `pop = pop + totpop` over `range(len(nodes))`.
      Looking up an index that is not a node id is the script's KeyError. */
  method TotalPopulation(population: NodePopulation) returns (r: Result<int>)
    ensures r.Ok? <==> Indexed(population, |population|)
    ensures r.Ok? ==> r.value == Total(population, |population|)
    ensures r.Err? ==> r.error.MissingNode? && 0 <= r.error.node < |population|
                       && r.error.node !in population && Indexed(population, r.error.node)
  {
    var pop := 0;
    var v := 0;
    while v < |population|
      invariant 0 <= v <= |population|
      invariant Indexed(population, v)
      invariant pop == Total(population, v)
    {
      if v !in population {
        return Err(MissingNode(v));
      }
      pop := pop + population[v];
      v := v + 1;
    }
    return Ok(pop);
  }

  /** `ideal_pop = pop / num_dist`, a true (real) division. */
  function IdealPopulation(pop: int, numDist: nat): (ideal: real)
    requires numDist > 0
    ensures ideal * numDist as real == pop as real
  {
    pop as real / numDist as real
  }

  /** The set of indices 0 .. n-1. */
  function Range(n: nat): (s: set<int>)
    ensures forall v :: v in s <==> 0 <= v < n
    ensures |s| == n
  {
    if n == 0 then {} else Range(n - 1) + {n - 1}
  }

  /** When the loop succeeds it has visited every node exactly once: the node ids
      are then exactly 0 .. len(nodes)-1, so Total sums over the whole graph. */
  lemma {:induction false} IndexedCoversAllNodes(population: NodePopulation)
    requires Indexed(population, |population|)
    ensures population.Keys == Range(|population|)
  {
    var r := Range(|population|);
    assert r <= population.Keys;
    assert |population.Keys - r| == |population.Keys| - |r| == 0;
  }

  /** Non-negative node populations give a non-negative total and ideal. */
  lemma {:induction false} TotalNonNegative(population: NodePopulation, n: nat)
    requires Indexed(population, n)
    requires forall v :: 0 <= v < n ==> population[v] >= 0
    ensures Total(population, n) >= 0
    ensures IdealPopulation(Total(population, n), NUM_DIST) >= 0.0
  {
    if n > 0 {
      TotalNonNegative(population, n - 1);
    }
  }
}
