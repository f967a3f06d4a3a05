/** The scenario step validator: sort each register's steps and compare neighbours. */
module ScenarioService {
  import opened Prelude
  import opened Intervals
  import opened Anomalies

  ghost predicate NeighboursClear(sorted: seq<Step>) {
    forall i :: 0 <= i < |sorted| - 1 ==> sorted[i].End() <= sorted[i + 1].trigger
  }

  function TriggerOf(): Step -> int { Window().lo }

  lemma ScanDecides(group: seq<Step>)
    requires AllValid(group)
    ensures NeighboursClear(SortBy(group, TriggerOf())) <==> PairwiseDisjoint(group, Window())
  {
    var sorted := SortBy(group, TriggerOf());
    SortedScanDecides(group, Window());
    if NeighboursClear(sorted) {
      forall i | 0 <= i < |sorted| - 1
        ensures Window().hi(sorted[i]) <= Window().lo(sorted[i + 1])
      {
        assert sorted[i].End() <= sorted[i + 1].trigger;
      }
    }
    if NeighboursDisjoint(sorted, Window()) {
      forall i | 0 <= i < |sorted| - 1
        ensures sorted[i].End() <= sorted[i + 1].trigger
      {
        assert Window().hi(sorted[i]) <= Window().lo(sorted[i + 1]);
      }
    }
  }

  lemma ScanClash(group: seq<Step>, i: nat)
    requires AllValid(group)
    requires i + 1 < |SortBy(group, TriggerOf())|
    requires SortBy(group, TriggerOf())[i].End() > SortBy(group, TriggerOf())[i + 1].trigger
    ensures var sorted := SortBy(group, TriggerOf());
      sorted[i] in group && sorted[i + 1] in group && !Window().Disjoint(sorted[i], sorted[i + 1])
  {
    var sorted := SortBy(group, TriggerOf());
    SortByOrders(group, TriggerOf());
    SortByMembers(group, TriggerOf(), sorted[i]);
    SortByMembers(group, TriggerOf(), sorted[i + 1]);
    assert TriggerOf()(sorted[i]) <= TriggerOf()(sorted[i + 1]);
    assert sorted[i + 1].Valid();
  }

  ghost predicate ClashIn(group: seq<Step>, clash: (Step, Step)) {
    clash.0 in group && clash.1 in group && !Window().Disjoint(clash.0, clash.1)
  }

  /** One register's sorted scan: the first neighbours that overlap, if any. */
  method ScanGroup(group: seq<Step>) returns (clash: Option<(Step, Step)>)
    requires AllValid(group)
    ensures clash.None? <==> PairwiseDisjoint(group, Window())
    ensures clash.Some? ==> ClashIn(group, clash.value)
  {
    var sorted := SortBy(group, TriggerOf());
    ScanDecides(group);
    var i := 0;
    while i + 1 < |sorted|
      invariant forall k :: 0 <= k < i && k + 1 < |sorted| ==> sorted[k].End() <= sorted[k + 1].trigger
    {
      if sorted[i].End() > sorted[i + 1].trigger {
        ScanClash(group, i);
        return Some((sorted[i], sorted[i + 1]));
      }
      i := i + 1;
    }
    return None;
  }

  lemma GroupMembers(steps: seq<Step>, register: string)
    requires AllValid(steps)
    ensures AllValid(Filter(steps, KeyIs(RegisterOf(), register)))
  {
    var group := Filter(steps, KeyIs(RegisterOf(), register));
    forall i | 0 <= i < |group|
      ensures group[i].Valid()
    {
      assert group[i] in group;
    }
  }

  lemma GroupClash(steps: seq<Step>, register: string, clash: (Step, Step))
    requires ClashIn(Filter(steps, KeyIs(RegisterOf(), register)), clash)
    ensures Overlapping(steps, Overlap(register, clash.0, clash.1))
  {
    assert KeyIs(RegisterOf(), register)(clash.0) && KeyIs(RegisterOf(), register)(clash.1);
  }

  /** The second half of the validator: the steps by register, each list scanned. */
  method FindOverlap(steps: seq<Step>) returns (clash: Option<TimelineError>)
    requires AllValid(steps)
    ensures clash.None? <==> TimelineDisjoint(steps)
    ensures clash.Some? ==> Overlapping(steps, clash.value)
  {
    var order, byRegister := GroupBy(steps, RegisterOf());
    GroupsDecideKeyed(steps, RegisterOf(), Window(), byRegister.Keys);
    for n := 0 to |order|
      invariant forall i :: 0 <= i < n ==> PairwiseDisjoint(byRegister[order[i]], Window())
    {
      GroupMembers(steps, order[n]);
      var found := ScanGroup(byRegister[order[n]]);
      if found.Some? {
        GroupClash(steps, order[n], found.value);
        return Some(Overlap(order[n], found.value.0, found.value.1));
      }
    }
    return None;
  }

  /**
   Accepts a scenario exactly when every step names a template register and no
   two steps on one register overlap; a rejection names the offender.
   */
  method ValidateSteps(steps: seq<Step>, registers: set<string>) returns (r: Result<(), TimelineError>)
    requires AllValid(steps)
    ensures r.Ok? <==> Acceptable(steps, registers)
    ensures r.Err? && r.error.UnknownRegister? ==> Unknown(steps, registers, r.error.name)
    ensures r.Err? && r.error.Overlap? ==> Overlapping(steps, r.error)
  {
    var unknown := FindUnknownRegister(steps, registers);
    if unknown.Some? {
      return Err(UnknownRegister(unknown.value));
    }
    var clash := FindOverlap(steps);
    return if clash.Some? then Err(clash.value) else Ok(());
  }

  /** The latest end of a step, 0 for no steps. */
  function TotalDuration(steps: seq<Step>): (total: int)
    requires AllValid(steps)
    ensures 0 <= total
    ensures forall s <- steps :: s.End() <= total
    ensures steps != [] ==> exists s :: s in steps && s.End() == total
  {
    if steps == [] then 0
    else
      var rest := TotalDuration(steps[1..]);
      assert steps[0].Valid();
      assert forall s :: s in steps <==> s == steps[0] || s in steps[1..];
      if steps[0].End() >= rest then
        assert steps[0] in steps;
        steps[0].End()
      else rest
  }
}
