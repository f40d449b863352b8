/** The majority-minority count of one plan visited by a burst.
    The BVAP and VAP tallies are the plan's `.items()` lists of
    (district label, total) pairs; they are paired BY POSITION with `zip`,
    so the pairing stops at the shorter list and never compares labels. */
module MajorityMinority {
  import opened Outcomes

  /** A plan's per-district tally as the list of its (label, total) items. */
  type Tally<L> = seq<(L, int)>

  /** One entry `mm == [count, part]`: a count and the plan it was counted on. */
  datatype Entry<P> = Entry(count: nat, plan: P)

  /** The state of the zip loop after it finished: its count and what `mm` holds. */
  datatype Scored<P> = Scored(count: nat, mm: Option<Entry<P>>)

  /** `BVAP / VAP >= 0.5`, with exact division. Python's int/int division is
      correctly rounded and 0.5 is exact, so for |VAP| below 2^53 the float
      comparison agrees with this one; for larger VAP a ratio within half an ulp
      below 0.5 rounds up to 0.5, which this predicate does not count. */
  predicate MeetsHalf(bvap: int, vap: int)
    requires vap != 0
  {
    (bvap as real) / (vap as real) >= 0.5
  }

  /** The ratio test needs no division: it is an integer comparison whose
      direction depends on the sign of VAP. */
  lemma HalfTestIsIntegral(bvap: int, vap: int)
    requires vap != 0
    ensures MeetsHalf(bvap, vap) <==> if vap > 0 then 2 * bvap >= vap else 2 * bvap <= vap
  {
  }

  /** Number of pairs `zip` produces: the length of the shorter tally. */
  function ZipLength<L>(bvap: Tally<L>, vap: Tally<L>): (n: nat)
    ensures n <= |bvap| && n <= |vap|
    ensures n == |bvap| || n == |vap|
  {
    if |bvap| <= |vap| then |bvap| else |vap|
  }

  /** The zip loop run over its first n pairs: the count of pairs meeting the
      ratio test, or the ZeroDivisionError of the first pair whose VAP is 0. */
  function ScorePrefix<L>(bvap: Tally<L>, vap: Tally<L>, n: nat): (r: Result<nat>)
    requires n <= |bvap| && n <= |vap|
    ensures r.Ok? <==> forall k :: 0 <= k < n ==> vap[k].1 != 0
    ensures r.Ok? ==> r.value <= n
    ensures r.Err? ==> r.error.ZeroVap? && r.error.position < n && vap[r.error.position].1 == 0
                       && forall k :: 0 <= k < r.error.position ==> vap[k].1 != 0
  {
    if n == 0 then Ok(0)
    else match ScorePrefix(bvap, vap, n - 1)
      case Err(e) => Err(e)
      case Ok(c) =>
        if vap[n - 1].1 == 0 then Err(ZeroVap(n - 1))
        else Ok(c + if MeetsHalf(bvap[n - 1].1, vap[n - 1].1) then 1 else 0)
  }

  /** The count `maj_min_districts1` of a plan after the whole zip loop. */
  function Score<L>(bvap: Tally<L>, vap: Tally<L>): (r: Result<nat>)
  {
    ScorePrefix(bvap, vap, ZipLength(bvap, vap))
  }

  /** Positions among the first n zipped pairs whose district is majority-minority. */
  function Qualifying<L>(bvap: Tally<L>, vap: Tally<L>, n: nat): set<nat>
    requires n <= |bvap| && n <= |vap|
  {
    set k: nat | k < n && vap[k].1 != 0 && MeetsHalf(bvap[k].1, vap[k].1)
  }

  /** The count is exactly the number of zipped districts meeting the ratio test:
      each pair adds 1 when it qualifies and 0 otherwise. */
  lemma {:induction false} ScoreCountsQualifying<L>(bvap: Tally<L>, vap: Tally<L>, n: nat)
    requires n <= |bvap| && n <= |vap|
    requires ScorePrefix(bvap, vap, n).Ok?
    ensures ScorePrefix(bvap, vap, n).value == |Qualifying(bvap, vap, n)|
  {
    if n > 0 {
      ScoreCountsQualifying(bvap, vap, n - 1);
      var before := Qualifying(bvap, vap, n - 1);
      assert n - 1 !in before;
      if MeetsHalf(bvap[n - 1].1, vap[n - 1].1) {
        assert Qualifying(bvap, vap, n) == before + {n - 1};
      } else {
        assert Qualifying(bvap, vap, n) == before;
      }
    }
  }

  /** The count of a plan lies between 0 and the number of zipped pairs, and
      the step fails exactly when some zipped VAP is 0. */
  lemma ScoreBounds<L>(bvap: Tally<L>, vap: Tally<L>)
    ensures Score(bvap, vap).Ok? <==> forall k :: 0 <= k < ZipLength(bvap, vap) ==> vap[k].1 != 0
    ensures Score(bvap, vap).Ok? ==> 0 <= Score(bvap, vap).value <= ZipLength(bvap, vap)
  {
  }

  /** `mm` after one step's zip loop: rewritten with `[count, part]` at every
      increment, so it holds the step's final count when the step qualified,
      and is left as it was otherwise. */
  function AfterStep<L, P>(mm: Option<Entry<P>>, plan: P, bvap: Tally<L>, vap: Tally<L>): (r: Result<Option<Entry<P>>>)
  {
    match Score(bvap, vap)
    case Err(e) => Err(e)
    case Ok(c) => Ok(if c > 0 then Some(Entry(c, plan)) else mm)
  }

  /** The zip loop of one step: counts the districts with BVAP/VAP >= 0.5 and
      overwrites `mm` with `[count, part]` on every increment. */
  method ScoreStep<L, P>(plan: P, bvap: Tally<L>, vap: Tally<L>, mm: Option<Entry<P>>) returns (r: Result<Scored<P>>)
    ensures r.Ok? <==> Score(bvap, vap).Ok?
    ensures r.Err? ==> r.error == Score(bvap, vap).error
    ensures r.Ok? ==> r.value.count == Score(bvap, vap).value
    ensures r.Ok? ==> r.value.count <= ZipLength(bvap, vap)
    ensures r.Ok? ==> r.value.mm == (if r.value.count > 0 then Some(Entry(r.value.count, plan)) else mm)
    ensures r.Ok? ==> AfterStep(mm, plan, bvap, vap) == Ok(r.value.mm)
  {
    var n := ZipLength(bvap, vap);
    var count: nat := 0;
    var current := mm;
    var k := 0;
    while k < n
      invariant 0 <= k <= n
      invariant ScorePrefix(bvap, vap, k) == Ok(count)
      invariant current == if count > 0 then Some(Entry(count, plan)) else mm
    {
      var b, v := bvap[k].1, vap[k].1;
      if v == 0 {
        return Err(ZeroVap(k));
      }
      HalfTestIsIntegral(b, v);
      if (if v > 0 then 2 * b >= v else 2 * b <= v) {
        count := count + 1;
        current := Some(Entry(count, plan));
      }
      k := k + 1;
    }
    return Ok(Scored(count, current));
  }

  /** A district with BVAP 60 and VAP 100 is majority-minority; one with VAP 0
      stops the step with a division error instead of being counted. */
  lemma ScoreExamples()
    ensures Score([(0, 60)], [(0, 100)]) == Ok(1)
    ensures Score([(0, 49), (1, 0)], [(0, 100), (1, 0)]) == Err(ZeroVap(1))
  {
  }
}
