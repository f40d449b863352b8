/** Best-of-burst selection: a running maximum over `list_of_mm` that starts
    from the sentinel `[0]` and takes an entry whenever its count is `>=` the
    maximum so far, so on ties the later step wins. */
module BestOfBurst {
  import opened Outcomes
  import opened MajorityMinority

  /** The selected position `max1_a` and entry `max1`. */
  datatype Best<P> = Best(index: nat, entry: Entry<P>)

  /** The position the running maximum ends on, for a non-empty list. */
  function BestIndex<P>(list: seq<Entry<P>>): (i: nat)
    requires |list| > 0
    ensures i < |list|
  {
    if |list| == 1 then 0
    else
      var j := BestIndex(list[..|list| - 1]);
      if list[|list| - 1].count >= list[j].count then |list| - 1 else j
  }

  /** The selected position holds the largest count, and every later position
      holds a strictly smaller one: it is the LAST position of the maximum. */
  lemma {:induction false} BestIndexIsLastMax<P>(list: seq<Entry<P>>)
    requires |list| > 0
    ensures forall k :: 0 <= k < |list| ==> list[k].count <= list[BestIndex(list)].count
    ensures forall k :: BestIndex(list) < k < |list| ==> list[k].count < list[BestIndex(list)].count
  {
    if |list| > 1 {
      var init := list[..|list| - 1];
      BestIndexIsLastMax(init);
      assert forall k :: 0 <= k < |init| ==> init[k] == list[k];
    }
  }

  /** The `for a in range(len(list_of_mm))` loop and `initial_partition = max1[1]`:
      an empty burst leaves the sentinel `[0]` in place, which has no plan. */
  method SelectBest<P>(list: seq<Entry<P>>) returns (r: Result<Best<P>>)
    ensures r.Ok? <==> |list| > 0
    ensures r.Err? ==> r.error == NoPlanToCarry
    ensures r.Ok? ==> r.value.index < |list| && r.value.entry == list[r.value.index]
    ensures r.Ok? ==> forall k :: 0 <= k < |list| ==> list[k].count <= r.value.entry.count
    ensures r.Ok? ==> forall k :: r.value.index < k < |list| ==> list[k].count < r.value.entry.count
    ensures r.Ok? ==> r.value.index == BestIndex(list)
  {
    var max1: Option<Entry<P>> := None;   // None is the sentinel `[0]`
    var max1A := 0;
    var a := 0;
    while a < |list|
      invariant 0 <= a <= |list|
      invariant a == 0 ==> max1 == None && max1A == 0
      invariant a > 0 ==> max1A == BestIndex(list[..a]) && max1 == Some(list[max1A])
    {
      var sentinel := if max1.None? then 0 else max1.value.count;
      if list[a].count >= sentinel {
        max1A := a;
        max1 := Some(list[a]);
      }
      assert list[..a + 1][..a] == list[..a];
      a := a + 1;
    }
    if max1.None? {
      return Err(NoPlanToCarry);
    }
    assert list[..|list|] == list;
    BestIndexIsLastMax(list);
    return Ok(Best(max1A, max1.value));
  }
}
