/** The schedule validator: compare every pair of a register's entries. */
module AnomalyService {
  import opened Prelude
  import opened Intervals
  import opened Anomalies

  /** The first overlapping pair of one register's entries, by nested scan. */
  method CheckOverlap(schedules: seq<Step>, register: string) returns (clash: Option<(Step, Step)>)
    ensures clash.None? <==> DisjointWhere(schedules, KeyIs(RegisterOf(), register), Window())
    ensures clash.Some? ==> Overlapping(schedules, Overlap(register, clash.value.0, clash.value.1))
  {
    var same := Filter(schedules, KeyIs(RegisterOf(), register));
    FilterDisjoint(schedules, KeyIs(RegisterOf(), register), Window());
    for i := 0 to |same|
      invariant forall a, b :: 0 <= a < i && a < b < |same| ==> Window().Disjoint(same[a], same[b])
    {
      for j := i + 1 to |same|
        invariant forall b :: i < b < j ==> Window().Disjoint(same[i], same[b])
      {
        if same[i].trigger < same[j].End() && same[j].trigger < same[i].End() {
          assert same[i] in same && same[j] in same;
          assert KeyIs(RegisterOf(), register)(same[i]) && KeyIs(RegisterOf(), register)(same[j]);
          assert !Window().Disjoint(same[i], same[j]);
          return Some((same[i], same[j]));
        }
      }
    }
    return None;
  }

  /**
   The validation part of `set_schedules`: accepts exactly the timelines the
   scenario validator accepts.
   */
  method ValidateSchedules(schedules: seq<Step>, registers: set<string>) returns (r: Result<(), TimelineError>)
    ensures r.Ok? <==> Acceptable(schedules, registers)
    ensures r.Err? && r.error.UnknownRegister? ==> Unknown(schedules, registers, r.error.name)
    ensures r.Err? && r.error.Overlap? ==> Overlapping(schedules, r.error)
  {
    var unknown := FindUnknownRegister(schedules, registers);
    if unknown.Some? {
      return Err(UnknownRegister(unknown.value));
    }
    var names := set s <- schedules :: s.register;
    var left := names;
    while left != {}
      invariant left <= names
      invariant forall name <- names - left :: DisjointWhere(schedules, KeyIs(RegisterOf(), name), Window())
    {
      var name :| name in left;
      var clash := CheckOverlap(schedules, name);
      if clash.Some? {
        KeyedMeansWhere(schedules, name);
        return Err(Overlap(name, clash.value.0, clash.value.1));
      }
      left := left - {name};
    }
    WhereMeansKeyed(schedules, names);
    return Ok(());
  }

  lemma KeyedMeansWhere(schedules: seq<Step>, name: string)
    ensures TimelineDisjoint(schedules) ==> DisjointWhere(schedules, KeyIs(RegisterOf(), name), Window())
  {
  }

  lemma WhereMeansKeyed(schedules: seq<Step>, names: set<string>)
    requires forall s <- schedules :: s.register in names
    requires forall name <- names :: DisjointWhere(schedules, KeyIs(RegisterOf(), name), Window())
    ensures TimelineDisjoint(schedules)
  {
    forall i, j | 0 <= i < j < |schedules| && schedules[i].register == schedules[j].register
      ensures Window().Disjoint(schedules[i], schedules[j])
    {
      assert schedules[i] in schedules;
      assert DisjointWhere(schedules, KeyIs(RegisterOf(), schedules[i].register), Window());
      assert KeyIs(RegisterOf(), schedules[i].register)(schedules[j]);
    }
  }
}
