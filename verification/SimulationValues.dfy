/** What one tick stores, sends and reports, mode by mode. */
module SimulationValues {
  import opened Prelude
  import opened ExpressionParser
  import opened SimulationTick

  /** What a mode gives, over the values its turn sees; none where it raises. */
  function Produced<F(!new)>(fl: Floats<F>, outside: Outside<F>, c: Config<F>, seen: map<string, F>): Option<F> {
    match c.mode
    case Static(value) => Some(value)
    case Drawn => Some(outside.drawn(c.register))
    case Accumulator(start, increment) => Some(fl.add(start, fl.mul(increment, outside.elapsed)))
    case OtherMode(_) => None
    case Computed(expression) =>
      var r := ParseAndEvaluate(fl, expression, seen);
      if r.Ok? then Some(r.value) else None
  }

  /** Divided by the register's scale factor, unless that is zero. */
  function Raw<F(!new)>(fl: Floats<F>, x: F, scale: F): F {
    if !fl.isZero(scale) then fl.div(x, scale) else x
  }

  /** One register's turn: what it stores, what it sends, and whether it reports an error. */
  lemma TurnIs<F(!new)>(
      fl: Floats<F>, metas: map<string, RegisterMeta<F>>, outside: Outside<F>, s: Sweep<F>, c: Config<F>)
    requires c.register in metas
    ensures var x, after := Produced(fl, outside, c, s.values), SweptOne(fl, metas, outside, s, c);
      if x == None then after == Sweep(s.values, true, s.pushed)
      else
        var v := outside.altered(c.register, x.value);
        && after.values == s.values[c.register := v]
        && (if outside.pushFails(c.register) then after.failed && after.pushed == s.pushed
            else after.failed == s.failed
                 && after.pushed == s.pushed + [(c.register, Raw(fl, v, metas[c.register].scale))])
  {
  }

  /** Turn n of a sweep over the device's values. */
  function ProducedAt<F(!new)>(
      fl: Floats<F>, metas: map<string, RegisterMeta<F>>, outside: Outside<F>,
      values: map<string, F>, configs: seq<Config<F>>, n: nat): Option<F>
    requires AllInTemplate(configs, metas) && n < |configs|
  {
    Produced(fl, outside, configs[n], Swept(fl, metas, outside, values, configs, n).values)
  }

  /**
   After a tick each register holds what its mode gave, as the injector altered it:
   the static value, the drawn one, start plus rate times elapsed time, or the
   expression over what its turn saw. Where a mode raises the old value stays.
   */
  lemma StoredValue<F(!new)>(
      fl: Floats<F>, metas: map<string, RegisterMeta<F>>, outside: Outside<F>,
      values: map<string, F>, configs: seq<Config<F>>, n: nat)
    requires AllInTemplate(configs, metas) && DistinctRegisters(configs) && n < |configs|
    ensures var after, r := Swept(fl, metas, outside, values, configs, |configs|).values, configs[n].register;
      var x := ProducedAt(fl, metas, outside, values, configs, n);
      Get(after, r) == if x == None then Get(values, r) else Some(outside.altered(r, x.value))
  {
    var before, r := Swept(fl, metas, outside, values, configs, n), configs[n].register;
    TurnIs(fl, metas, outside, before, configs[n]);
    SweepFrame(fl, metas, outside, values, configs, n + 1, |configs|, r);
    SweepFrame(fl, metas, outside, values, configs, 0, n, r);
  }

  /** A register without a config keeps its value. */
  lemma OtherValuesKept<F(!new)>(
      fl: Floats<F>, metas: map<string, RegisterMeta<F>>, outside: Outside<F>,
      values: map<string, F>, configs: seq<Config<F>>, name: string)
    requires AllInTemplate(configs, metas) && forall c <- configs :: c.register != name
    ensures Get(Swept(fl, metas, outside, values, configs, |configs|).values, name) == Get(values, name)
  {
    SweepFrame(fl, metas, outside, values, configs, 0, |configs|, name);
  }

  predicate TurnFails<F(!new)>(
      fl: Floats<F>, metas: map<string, RegisterMeta<F>>, outside: Outside<F>,
      values: map<string, F>, configs: seq<Config<F>>, n: nat)
    requires AllInTemplate(configs, metas) && n < |configs|
  {
    ProducedAt(fl, metas, outside, values, configs, n) == None || outside.pushFails(configs[n].register)
  }

  /** A tick has an error exactly when some register's mode raises or its adapter refuses the value. */
  lemma {:induction false} FailsExactly<F(!new)>(
      fl: Floats<F>, metas: map<string, RegisterMeta<F>>, outside: Outside<F>,
      values: map<string, F>, configs: seq<Config<F>>, n: nat)
    requires AllInTemplate(configs, metas) && n <= |configs|
    ensures Swept(fl, metas, outside, values, configs, n).failed
       <==> exists k: nat :: k < n && TurnFails(fl, metas, outside, values, configs, k)
  {
    if n > 0 {
      FailsExactly(fl, metas, outside, values, configs, n - 1);
      TurnIs(fl, metas, outside, Swept(fl, metas, outside, values, configs, n - 1), configs[n - 1]);
      assert TurnFails(fl, metas, outside, values, configs, n - 1) ==>
        exists k: nat :: k < n && TurnFails(fl, metas, outside, values, configs, k);
    }
  }

  /** What the adapter is to get from the first n turns: the altered values, scaled, in sweep order. */
  function ToSend<F(!new)>(
      fl: Floats<F>, metas: map<string, RegisterMeta<F>>, outside: Outside<F>,
      values: map<string, F>, configs: seq<Config<F>>, n: nat): seq<(string, F)>
    requires AllInTemplate(configs, metas) && n <= |configs|
  {
    if n == 0 then []
    else
      var before, r := ToSend(fl, metas, outside, values, configs, n - 1), configs[n - 1].register;
      if TurnFails(fl, metas, outside, values, configs, n - 1) then before
      else
        var v := outside.altered(r, ProducedAt(fl, metas, outside, values, configs, n - 1).value);
        before + [(r, Raw(fl, v, metas[r].scale))]
  }

  lemma {:induction false} SentValues<F(!new)>(
      fl: Floats<F>, metas: map<string, RegisterMeta<F>>, outside: Outside<F>,
      values: map<string, F>, configs: seq<Config<F>>, n: nat)
    requires AllInTemplate(configs, metas) && n <= |configs|
    ensures Swept(fl, metas, outside, values, configs, n).pushed == ToSend(fl, metas, outside, values, configs, n)
  {
    if n > 0 {
      SentValues(fl, metas, outside, values, configs, n - 1);
      TurnIs(fl, metas, outside, Swept(fl, metas, outside, values, configs, n - 1), configs[n - 1]);
    }
  }
}
