/** The outer `for i in range(num_bursts)` loop: each burst runs the Markov
    chain from `initial_partition`, records `list_of_mm`, selects the best entry
    and makes its plan the next `initial_partition`. The compactness bound is
    computed once, from the original seed, before the loop. */
module ShortBursts {
  import opened Outcomes
  import opened MajorityMinority
  import opened BurstRecord
  import opened BestOfBurst

  /** The Markov chain of one burst, which the model does not look inside: given
      the burst index, the seed plan and the compactness bound, the plans it
      yields with their tallies. The proposal, the population constraint and the
      random generator are all folded into this function. It is not required to
      yield its seed plan first, nor a fixed number of plans. */
  type Chain<L, !P> = (nat, P, nat) -> seq<Step<L, P>>

  /** The script's variables after some bursts: `initial_partition`, the
      compactness bound, `mm`, the last burst's `list_of_mm` and `max1_a`. */
  datatype RunState<P> = RunState(seed: P, bound: nat, mm: Option<Entry<P>>, listOfMm: seq<Entry<P>>, bestIndex: nat)

  /** `2 * len(initial_partition["cut_edges"])` of the original seed. */
  function CompactnessBound(seedCutEdges: nat): nat
  {
    2 * seedCutEdges
  }

  /** Burst j run from the state `st` the earlier bursts left: the chain is
      started from `st.seed`, `list_of_mm` starts empty, `mm` carries over, and
      the best entry's plan becomes the next seed. */
  function Burst<L, P>(chain: Chain<L, P>, bound: nat, j: nat, st: RunState<P>): (r: Result<RunState<P>>)
  {
    var steps := chain(j, st.seed, bound);
    match Recorded(steps, st.mm, |steps|)
    case Err(e) => Err(e)
    case Ok(log) =>
      if |log.listOfMm| == 0 then Err(NoPlanToCarry)
      else
        var a := BestIndex(log.listOfMm);
        Ok(RunState(log.listOfMm[a].plan, bound, log.mm, log.listOfMm, a))
  }

  /** A burst that completes leaves `mm` on the last entry it recorded and
      seeds the next burst with the plan of the last entry of largest count. */
  lemma BurstShape<L, P>(chain: Chain<L, P>, bound: nat, j: nat, st: RunState<P>)
    requires Burst(chain, bound, j, st).Ok?
    ensures var next := Burst(chain, bound, j, st).value;
            && |next.listOfMm| == |chain(j, st.seed, bound)| > 0
            && next.bound == bound
            && next.mm == Some(next.listOfMm[|next.listOfMm| - 1])
            && next.bestIndex == BestIndex(next.listOfMm)
            && next.seed == next.listOfMm[next.bestIndex].plan
  {
  }

  /** The state after the first k bursts. */
  function RunAfter<L, P>(chain: Chain<L, P>, seed0: P, bound: nat, k: nat): (r: Result<RunState<P>>)
  {
    if k == 0 then Ok(RunState(seed0, bound, None, [], 0))
    else match RunAfter(chain, seed0, bound, k - 1)
      case Err(e) => Err(e)
      case Ok(st) => Burst(chain, bound, k - 1, st)
  }

  /** The whole run of `num_bursts` bursts from the original seed plan. */
  method RunShortBursts<L, P>(chain: Chain<L, P>, seed: P, seedCutEdges: nat, numBursts: nat)
    returns (r: Result<RunState<P>>)
    ensures r == RunAfter(chain, seed, CompactnessBound(seedCutEdges), numBursts)
  {
    var bound := CompactnessBound(seedCutEdges);
    var initialPartition := seed;
    var mm: Option<Entry<P>> := None;
    var listOfMm: seq<Entry<P>> := [];
    var max1A := 0;
    var i := 0;
    while i < numBursts
      invariant 0 <= i <= numBursts
      invariant RunAfter(chain, seed, bound, i) == Ok(RunState(initialPartition, bound, mm, listOfMm, max1A))
    {
      var steps := chain(i, initialPartition, bound);
      var log := RecordBurst(steps, mm);
      if log.Err? {
        RunFailsFrom(chain, seed, bound, i + 1, numBursts);
        return Err(log.error);
      }
      var best := SelectBest(log.value.listOfMm);
      if best.Err? {
        RunFailsFrom(chain, seed, bound, i + 1, numBursts);
        return Err(best.error);
      }
      listOfMm := log.value.listOfMm;
      mm := log.value.mm;
      max1A := best.value.index;
      initialPartition := best.value.entry.plan;
      i := i + 1;
    }
    return Ok(RunState(initialPartition, bound, mm, listOfMm, max1A));
  }

  /** Once a burst has failed, the run has failed with that fault. */
  lemma {:induction false} RunFailsFrom<L, P>(chain: Chain<L, P>, seed0: P, bound: nat, m: nat, n: nat)
    requires m <= n
    requires RunAfter(chain, seed0, bound, m).Err?
    ensures RunAfter(chain, seed0, bound, n) == RunAfter(chain, seed0, bound, m)
  {
    if n > m {
      RunFailsFrom(chain, seed0, bound, m, n - 1);
    }
  }

  /** Every burst runs under the bound computed from the original seed: it is
      not recomputed when `initial_partition` is reassigned. Here this holds by
      construction, since `RunState.bound` only copies the parameter; the
      substance is that `RunShortBursts` computes the bound once, before its
      loop, and passes that one value to every burst. */
  lemma BoundFixedAcrossBursts<L, P>(chain: Chain<L, P>, seed0: P, seedCutEdges: nat, k: nat)
    requires RunAfter(chain, seed0, CompactnessBound(seedCutEdges), k).Ok?
    ensures RunAfter(chain, seed0, CompactnessBound(seedCutEdges), k).value.bound == 2 * seedCutEdges
  {
  }

  /** After a burst, the seed of the next burst is the plan of the entry at
      `max1_a`, which is the last position holding the burst's largest count. */
  lemma {:induction false} SeedIsLastBest<L, P>(chain: Chain<L, P>, seed0: P, bound: nat, k: nat)
    requires k > 0
    requires RunAfter(chain, seed0, bound, k).Ok?
    ensures var st := RunAfter(chain, seed0, bound, k).value;
            && st.bestIndex < |st.listOfMm|
            && st.seed == st.listOfMm[st.bestIndex].plan
            && (forall j :: 0 <= j < |st.listOfMm| ==> st.listOfMm[j].count <= st.listOfMm[st.bestIndex].count)
            && (forall j :: st.bestIndex < j < |st.listOfMm| ==> st.listOfMm[j].count < st.listOfMm[st.bestIndex].count)
  {
    BestIndexIsLastMax(RunAfter(chain, seed0, bound, k).value.listOfMm);
  }

  /** The plans the chain yielded in burst j. */
  function BurstSteps<L, P>(chain: Chain<L, P>, seed0: P, bound: nat, j: nat): seq<Step<L, P>>
    requires RunAfter(chain, seed0, bound, j).Ok?
  {
    chain(j, RunAfter(chain, seed0, bound, j).value.seed, bound)
  }

  /** Entry e was produced by step s of burst j. */
  ghost predicate VisitedAt<L, P>(chain: Chain<L, P>, seed0: P, bound: nat, j: nat, s: nat, e: Entry<P>)
  {
    RunAfter(chain, seed0, bound, j).Ok? && ProducedBy(BurstSteps(chain, seed0, bound, j), s, e)
  }

  /** Some step of some burst before the k-th produced entry e. */
  ghost predicate VisitedBefore<L, P>(chain: Chain<L, P>, seed0: P, bound: nat, k: nat, e: Entry<P>)
  {
    exists j: nat, s: nat :: j < k && VisitedAt(chain, seed0, bound, j, s, e)
  }

  /** An entry produced before burst j, or by one of the steps of burst j, was
      produced before burst j+1. */
  lemma {:induction false} VisitedBeforeNext<L, P>(chain: Chain<L, P>, seed0: P, bound: nat, j: nat, steps: seq<Step<L, P>>, e: Entry<P>)
    requires RunAfter(chain, seed0, bound, j).Ok?
    requires steps == BurstSteps(chain, seed0, bound, j)
    requires VisitedBefore(chain, seed0, bound, j, e) || exists s: nat :: ProducedBy(steps, s, e)
    ensures VisitedBefore(chain, seed0, bound, j + 1, e)
  {
    if VisitedBefore(chain, seed0, bound, j, e) {
      var i: nat, s: nat :| i < j && VisitedAt(chain, seed0, bound, i, s, e);
      assert i < j + 1 && VisitedAt(chain, seed0, bound, i, s, e);
    } else {
      var s: nat :| ProducedBy(steps, s, e);
      assert VisitedAt(chain, seed0, bound, j, s, e);
    }
  }

  /** Burst j keeps provenance: if what `mm` carried into it was produced
      before it, every entry it records was produced before burst j+1. */
  lemma {:induction false} BurstProvenance<L, P>(chain: Chain<L, P>, seed0: P, bound: nat, j: nat)
    requires RunAfter(chain, seed0, bound, j).Ok?
    requires var prev := RunAfter(chain, seed0, bound, j).value;
             prev.mm.Some? ==> VisitedBefore(chain, seed0, bound, j, prev.mm.value)
    requires Burst(chain, bound, j, RunAfter(chain, seed0, bound, j).value).Ok?
    ensures var st := Burst(chain, bound, j, RunAfter(chain, seed0, bound, j).value).value;
            forall i :: 0 <= i < |st.listOfMm| ==> VisitedBefore(chain, seed0, bound, j + 1, st.listOfMm[i])
  {
    var prev := RunAfter(chain, seed0, bound, j).value;
    var steps := BurstSteps(chain, seed0, bound, j);
    assert steps == chain(j, prev.seed, bound);
    var list := Recorded(steps, prev.mm, |steps|).value.listOfMm;
    RecordedProvenance(steps, prev.mm, |steps|);
    forall i | 0 <= i < |list|
      ensures VisitedBefore(chain, seed0, bound, j + 1, list[i])
    {
      VisitedBeforeNext(chain, seed0, bound, j, steps, list[i]);
    }
  }

  /** What the run's provenance lemma states after k bursts. */
  ghost predicate ProvenanceAfter<L, P>(chain: Chain<L, P>, seed0: P, bound: nat, k: nat)
    requires RunAfter(chain, seed0, bound, k).Ok?
  {
    var st := RunAfter(chain, seed0, bound, k).value;
    && (st.mm.Some? ==> VisitedBefore(chain, seed0, bound, k, st.mm.value))
    && (forall i :: 0 <= i < |st.listOfMm| ==> VisitedBefore(chain, seed0, bound, k, st.listOfMm[i]))
    && (k > 0 ==> st.bestIndex < |st.listOfMm| && st.seed == st.listOfMm[st.bestIndex].plan)
  }

  /** Burst j preserves the provenance of the run. */
  lemma {:induction false} ProvenanceStep<L, P>(chain: Chain<L, P>, seed0: P, bound: nat, j: nat)
    requires RunAfter(chain, seed0, bound, j + 1).Ok?
    requires RunAfter(chain, seed0, bound, j).Ok? && ProvenanceAfter(chain, seed0, bound, j)
    ensures ProvenanceAfter(chain, seed0, bound, j + 1)
  {
    var prev := RunAfter(chain, seed0, bound, j).value;
    assert RunAfter(chain, seed0, bound, j + 1) == Burst(chain, bound, j, prev);
    BurstProvenance(chain, seed0, bound, j);
    BurstShape(chain, bound, j, prev);
    var st := RunAfter(chain, seed0, bound, j + 1).value;
    assert VisitedBefore(chain, seed0, bound, j + 1, st.listOfMm[|st.listOfMm| - 1]);
  }

  /** Every entry `list_of_mm` holds after k bursts, and `mm`, was produced by a
      qualifying step of some burst so far, though not necessarily of the last
      burst. In particular every seed after the first is a plan the chain
      actually visited, with at least one majority-minority district. */
  lemma {:induction false} RunProvenance<L, P>(chain: Chain<L, P>, seed0: P, bound: nat, k: nat)
    requires RunAfter(chain, seed0, bound, k).Ok?
    ensures ProvenanceAfter(chain, seed0, bound, k)
    ensures k > 0 ==> exists e: Entry<P> :: e.plan == RunAfter(chain, seed0, bound, k).value.seed
                                            && VisitedBefore(chain, seed0, bound, k, e)
  {
    if k > 0 {
      var j := k - 1;
      assert RunAfter(chain, seed0, bound, j).Ok?;
      RunProvenance(chain, seed0, bound, j);
      ProvenanceStep(chain, seed0, bound, j);
      var st := RunAfter(chain, seed0, bound, k).value;
      assert VisitedBefore(chain, seed0, bound, k, st.listOfMm[st.bestIndex]);
    }
  }

  /** The first burst fails with the unbound `mm` unless its first plan has a
      majority-minority district: nothing has been recorded before it. */
  lemma {:induction false} FirstBurstNeedsQualifyingStart<L, P>(chain: Chain<L, P>, seed0: P, bound: nat)
    requires RunAfter(chain, seed0, bound, 1).Ok?
    ensures |chain(0, seed0, bound)| > 0
    ensures StepScore(chain(0, seed0, bound)[0]).Ok?
    ensures StepScore(chain(0, seed0, bound)[0]).value > 0
  {
    var steps := chain(0, seed0, bound);
    RecordedOkIff(steps, None, |steps|);
  }

  /** A burst none of whose plans has a majority-minority district re-seeds the
      next burst with the plan `mm` held before it, a plan from an earlier burst,
      and `max1_a` is then its last step. */
  lemma {:induction false} StaleBurstReseedsFromEarlier<L, P>(chain: Chain<L, P>, seed0: P, bound: nat, k: nat)
    requires RunAfter(chain, seed0, bound, k).Ok?
    requires RunAfter(chain, seed0, bound, k).value.mm.Some?
    requires |chain(k, RunAfter(chain, seed0, bound, k).value.seed, bound)| > 0
    requires forall s :: 0 <= s < |chain(k, RunAfter(chain, seed0, bound, k).value.seed, bound)| ==>
               StepScore(chain(k, RunAfter(chain, seed0, bound, k).value.seed, bound)[s]) == Ok(0)
    ensures RunAfter(chain, seed0, bound, k + 1).Ok?
    ensures RunAfter(chain, seed0, bound, k + 1).value.seed == RunAfter(chain, seed0, bound, k).value.mm.value.plan
    ensures RunAfter(chain, seed0, bound, k + 1).value.bestIndex ==
              |chain(k, RunAfter(chain, seed0, bound, k).value.seed, bound)| - 1
  {
    var prev := RunAfter(chain, seed0, bound, k).value;
    var steps := chain(k, prev.seed, bound);
    StaleBurst(steps, prev.mm.value, |steps|);
    var list := Recorded(steps, prev.mm, |steps|).value.listOfMm;
    BestIndexIsLastMax(list);
  }
}
