/** Recording one burst: for every plan the chain yields, the step's zip loop
    runs and then `list_of_mm += [mm]` appends whatever `mm` holds. `mm` is only
    rewritten on a step with a qualifying district and is never reset, so a step
    with none re-appends an older entry, possibly one from an earlier burst. */
module BurstRecord {
  import opened Outcomes
  import opened MajorityMinority

  /** One plan yielded by the chain, with its BVAP and VAP tally items. */
  datatype Step<L, P> = Step(plan: P, bvap: Tally<L>, vap: Tally<L>)

  /** `list_of_mm` at the end of a burst, and what `mm` holds then. */
  datatype BurstLog<P> = BurstLog(listOfMm: seq<Entry<P>>, mm: Option<Entry<P>>)

  /** The majority-minority count of one step's plan. */
  function StepScore<L, P>(s: Step<L, P>): (r: Result<nat>)
  {
    Score(s.bvap, s.vap)
  }

  /** The first n steps of a burst, started from `list_of_mm = []` and the `mm`
      left over from earlier bursts. */
  function Recorded<L, P>(steps: seq<Step<L, P>>, mm0: Option<Entry<P>>, n: nat): (r: Result<BurstLog<P>>)
    requires n <= |steps|
    ensures r.Ok? ==> |r.value.listOfMm| == n
    ensures r.Ok? ==> r.value.mm == if n == 0 then mm0 else Some(r.value.listOfMm[n - 1])
  {
    if n == 0 then Ok(BurstLog([], mm0))
    else match Recorded(steps, mm0, n - 1)
      case Err(e) => Err(e)
      case Ok(log) =>
        match AfterStep(log.mm, steps[n - 1].plan, steps[n - 1].bvap, steps[n - 1].vap)
        case Err(e) => Err(e)
        case Ok(mm) =>
          if mm.None? then Err(MmUnbound)
          else Ok(BurstLog(log.listOfMm + [mm.value], mm))
  }

  /** The inner `for part in Chain3` loop of one burst. */
  method RecordBurst<L, P>(steps: seq<Step<L, P>>, mm0: Option<Entry<P>>) returns (r: Result<BurstLog<P>>)
    ensures r == Recorded(steps, mm0, |steps|)
  {
    var listOfMm: seq<Entry<P>> := [];
    var mm := mm0;
    var k := 0;
    while k < |steps|
      invariant 0 <= k <= |steps|
      invariant Recorded(steps, mm0, k) == Ok(BurstLog(listOfMm, mm))
    {
      var part := steps[k];
      var scored := ScoreStep(part.plan, part.bvap, part.vap, mm);
      if scored.Err? {
        RecordedFailsFrom(steps, mm0, k + 1, |steps|);
        return Err(scored.error);
      }
      mm := scored.value.mm;
      if mm.None? {
        RecordedFailsFrom(steps, mm0, k + 1, |steps|);
        return Err(MmUnbound);
      }
      listOfMm := listOfMm + [mm.value];
      k := k + 1;
    }
    return Ok(BurstLog(listOfMm, mm));
  }

  /** Once a step has failed, the burst has failed with that fault. */
  lemma {:induction false} RecordedFailsFrom<L, P>(steps: seq<Step<L, P>>, mm0: Option<Entry<P>>, m: nat, n: nat)
    requires m <= n <= |steps|
    requires Recorded(steps, mm0, m).Err?
    ensures Recorded(steps, mm0, n) == Recorded(steps, mm0, m)
  {
    if n > m {
      RecordedFailsFrom(steps, mm0, m, n - 1);
    }
  }

  /** A recorded burst extends every shorter recorded prefix of itself. */
  lemma {:induction false} RecordedPrefix<L, P>(steps: seq<Step<L, P>>, mm0: Option<Entry<P>>, m: nat, n: nat)
    requires m <= n <= |steps|
    requires Recorded(steps, mm0, n).Ok?
    ensures Recorded(steps, mm0, m).Ok?
    ensures Recorded(steps, mm0, m).value.listOfMm == Recorded(steps, mm0, n).value.listOfMm[..m]
  {
    if m < n {
      RecordedPrefix(steps, mm0, m, n - 1);
      var shorter := Recorded(steps, mm0, n - 1).value.listOfMm;
      assert Recorded(steps, mm0, n).value.listOfMm[..n - 1] == shorter;
    } else {
      assert Recorded(steps, mm0, n).value.listOfMm[..n] == Recorded(steps, mm0, n).value.listOfMm;
    }
  }

  /** Entry k of `list_of_mm`: a qualifying step records its own final count and
      its own plan; a step with no qualifying district records the entry before
      it again (for the first step, the `mm` carried in from earlier bursts). */
  lemma {:induction false} RecordedEntry<L, P>(steps: seq<Step<L, P>>, mm0: Option<Entry<P>>, n: nat, k: nat)
    requires k < n <= |steps|
    requires Recorded(steps, mm0, n).Ok?
    ensures StepScore(steps[k]).Ok?
    ensures StepScore(steps[k]).value > 0 ==>
              Recorded(steps, mm0, n).value.listOfMm[k] == Entry(StepScore(steps[k]).value, steps[k].plan)
    ensures StepScore(steps[k]).value == 0 && k == 0 ==>
              mm0 == Some(Recorded(steps, mm0, n).value.listOfMm[0])
    ensures StepScore(steps[k]).value == 0 && k > 0 ==>
              Recorded(steps, mm0, n).value.listOfMm[k] == Recorded(steps, mm0, n).value.listOfMm[k - 1]
  {
    RecordedPrefix(steps, mm0, k + 1, n);
    var list := Recorded(steps, mm0, n).value.listOfMm;
    assert list[..k + 1][k] == list[k];
    if k > 0 {
      assert list[..k + 1][k - 1] == list[k - 1];
    }
  }

  /** A burst records without error exactly when no zipped VAP of any of its
      steps is 0 and `mm` is bound at its first step: either carried in, or set
      by a qualifying district of that first step. */
  lemma {:induction false} RecordedOkIff<L, P>(steps: seq<Step<L, P>>, mm0: Option<Entry<P>>, n: nat)
    requires n <= |steps|
    ensures Recorded(steps, mm0, n).Ok? <==>
              (forall k :: 0 <= k < n ==> StepScore(steps[k]).Ok?)
              && (n > 0 && mm0.None? ==> StepScore(steps[0]) != Ok(0))
  {
    if n > 0 {
      RecordedOkIff(steps, mm0, n - 1);
      if n - 1 > 0 && Recorded(steps, mm0, n - 1).Ok? {
        assert Recorded(steps, mm0, n - 1).value.mm.Some?;
      }
    }
  }

  /** A burst in which no step has a qualifying district records the entry
      carried in from an earlier burst at every step. */
  lemma {:induction false} StaleBurst<L, P>(steps: seq<Step<L, P>>, e: Entry<P>, n: nat)
    requires n <= |steps|
    requires forall k :: 0 <= k < n ==> StepScore(steps[k]) == Ok(0)
    ensures Recorded(steps, Some(e), n).Ok?
    ensures Recorded(steps, Some(e), n).value.mm == Some(e)
    ensures forall k :: 0 <= k < n ==> Recorded(steps, Some(e), n).value.listOfMm[k] == e
  {
    if n > 0 {
      StaleBurst(steps, e, n - 1);
    }
  }

  /** Entry `e` was produced by step j of the burst: that step had e.count >= 1
      qualifying districts and its plan is e.plan. */
  ghost predicate ProducedBy<L, P>(steps: seq<Step<L, P>>, j: nat, e: Entry<P>)
  {
    j < |steps| && e.count > 0 && StepScore(steps[j]) == Ok(e.count) && steps[j].plan == e.plan
  }

  /** Where each entry comes from: every entry of `list_of_mm`, and the final
      `mm`, is either the entry carried in from earlier bursts or an entry that
      some earlier-or-same step of this burst produced. */
  lemma {:induction false} RecordedProvenance<L, P>(steps: seq<Step<L, P>>, mm0: Option<Entry<P>>, n: nat)
    requires n <= |steps|
    requires Recorded(steps, mm0, n).Ok?
    ensures forall k :: 0 <= k < n ==>
              Some(Recorded(steps, mm0, n).value.listOfMm[k]) == mm0
              || exists j: nat :: j <= k && ProducedBy(steps, j, Recorded(steps, mm0, n).value.listOfMm[k])
  {
    if n > 0 {
      RecordedProvenance(steps, mm0, n - 1);
      var list := Recorded(steps, mm0, n).value.listOfMm;
      var before := Recorded(steps, mm0, n - 1).value.listOfMm;
      assert list[..n - 1] == before;
      forall k | 0 <= k < n - 1
        ensures Some(list[k]) == mm0 || exists j: nat :: j <= k && ProducedBy(steps, j, list[k])
      {
        assert list[k] == before[k];
      }
      RecordedEntry(steps, mm0, n, n - 1);
      if StepScore(steps[n - 1]).value > 0 {
        assert ProducedBy(steps, n - 1, list[n - 1]);
      }
    }
  }

  /** A burst whose first plan qualifies never appends an entry from an earlier
      burst: every entry was produced by one of its own steps at or before the
      entry's position. */
  lemma {:induction false} FreshStartBurst<L, P>(steps: seq<Step<L, P>>, mm0: Option<Entry<P>>, n: nat, k: nat)
    requires k < n <= |steps|
    requires Recorded(steps, mm0, n).Ok?
    requires StepScore(steps[0]).Ok? && StepScore(steps[0]).value > 0
    ensures exists j: nat :: j <= k && ProducedBy(steps, j, Recorded(steps, mm0, n).value.listOfMm[k])
  {
    var list := Recorded(steps, mm0, n).value.listOfMm;
    RecordedEntry(steps, mm0, n, k);
    if StepScore(steps[k]).value > 0 {
      assert ProducedBy(steps, k, list[k]);
    } else {
      FreshStartBurst(steps, mm0, n, k - 1);
      var j: nat :| j <= k - 1 && ProducedBy(steps, j, list[k - 1]);
      assert ProducedBy(steps, j, list[k]);
    }
  }

  /** Two steps, the first with one majority-minority district and the second
      with none: the second step records the first step's count and plan. */
  lemma StaleEntryExample<P>(p0: P, p1: P)
    ensures Recorded([Step(p0, [(0, 60)], [(0, 100)]), Step(p1, [(0, 10)], [(0, 100)])], None, 2)
            == Ok(BurstLog([Entry(1, p0), Entry(1, p0)], Some(Entry(1, p0))))
  {
    HalfTestIsIntegral(60, 100);
    HalfTestIsIntegral(10, 100);
    var steps := [Step(p0, [(0, 60)], [(0, 100)]), Step(p1, [(0, 10)], [(0, 100)])];
    assert StepScore(steps[0]) == Ok(1);
    assert StepScore(steps[1]) == Ok(0);
    assert Recorded(steps, None, 0) == Ok(BurstLog([], None));
    assert AfterStep(None, p0, steps[0].bvap, steps[0].vap) == Ok(Some(Entry(1, p0)));
    assert [] + [Entry(1, p0)] == [Entry(1, p0)];
    assert Recorded(steps, None, 1) == Ok(BurstLog([Entry(1, p0)], Some(Entry(1, p0))));
    assert AfterStep(Some(Entry(1, p0)), p1, steps[1].bvap, steps[1].vap) == Ok(Some(Entry(1, p0)));
    assert [Entry(1, p0)] + [Entry(1, p0)] == [Entry(1, p0), Entry(1, p0)];
  }
}
