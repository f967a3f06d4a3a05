/**
 One tick of a device's simulation: its registers are generated in sort order
 over one value map that is updated in place, so a computed register reads new
 values of the registers before it and old values of the others. The arithmetic
 is a parameter, as in the expression parser; random draws, the daily curve and
 the injector's effect are parameters of the tick.
 */
module SimulationTick {
  import opened Prelude
  import opened ProtocolBase
  import opened ExpressionGrammar
  import opened ExpressionText
  import opened ExpressionParser

  datatype Mode<F> =
    | Static(value: F)
    | Drawn
    | Computed(expression: string)
    | Accumulator(start: F, increment: F)
    | OtherMode(name: string)

  datatype Config<F> = Config(register: string, mode: Mode<F>)

  /** What the template says of a register: its position in the sweep and its scale. */
  datatype RegisterMeta<F> = RegisterMeta(sortOrder: int, scale: F)

  const DEFAULT_SORT_ORDER := 9999

  datatype GenerateError = BadExpression(cause: ExpressionError) | UnknownMode(name: string)

  /** What a tick gets from outside: the clock, drawn values, the injector's effect, failing adapters. */
  datatype Outside<!F> = Outside(
    elapsed: F,
    drawn: string -> F,
    altered: (string, F) -> F,
    pushFails: string -> bool
  )

  /** The device's values, whether an error occurred, and what the adapter was given. */
  datatype Sweep<F> = Sweep(values: map<string, F>, failed: bool, pushed: seq<(string, F)>)

  function SortOrderOf<F>(metas: map<string, RegisterMeta<F>>, register: string): int {
    if register in metas then metas[register].sortOrder else DEFAULT_SORT_ORDER
  }

  function SortKey<F>(metas: map<string, RegisterMeta<F>>): Config<F> -> int {
    (c: Config<F>) => SortOrderOf(metas, c.register)
  }

  function InTemplate<F>(metas: map<string, RegisterMeta<F>>): Config<F> -> bool {
    (c: Config<F>) => c.register in metas
  }

  /** The configs a device runs: those of its template's registers, in sort order. */
  function ValidConfigs<F(!new)>(configs: seq<Config<F>>, metas: map<string, RegisterMeta<F>>): seq<Config<F>> {
    Filter(SortBy(configs, SortKey(metas)), InTemplate(metas))
  }

  function Generated<F(!new)>(fl: Floats<F>, c: Config<F>, values: map<string, F>, outside: Outside<F>)
    : Result<F, GenerateError>
  {
    match c.mode
    case Static(value) => Ok(value)
    case Drawn => Ok(outside.drawn(c.register))
    case Computed(expression) =>
      (match ParseAndEvaluate(fl, expression, values)
       case Ok(x) => Ok(x)
       case Err(e) => Err(BadExpression(e)))
    case Accumulator(start, increment) => Ok(fl.add(start, fl.mul(increment, outside.elapsed)))
    case OtherMode(name) => Err(UnknownMode(name))
  }

  function Scaled<F(!new)>(fl: Floats<F>, x: F, scale: F): F {
    if fl.isZero(scale) then x else fl.div(x, scale)
  }

  /** One register's turn: a failed push still leaves the value stored. */
  function SweptOne<F(!new)>(
      fl: Floats<F>, metas: map<string, RegisterMeta<F>>, outside: Outside<F>, s: Sweep<F>, c: Config<F>): Sweep<F>
    requires c.register in metas
  {
    match Generated(fl, c, s.values, outside)
    case Err(_) => s.(failed := true)
    case Ok(generated) =>
      var x := outside.altered(c.register, generated);
      var stored := s.values[c.register := x];
      if outside.pushFails(c.register) then Sweep(stored, true, s.pushed)
      else Sweep(stored, s.failed, s.pushed + [(c.register, Scaled(fl, x, metas[c.register].scale))])
  }

  ghost predicate AllInTemplate<F>(configs: seq<Config<F>>, metas: map<string, RegisterMeta<F>>) {
    forall n :: 0 <= n < |configs| ==> configs[n].register in metas
  }

  /** The sweep over the first n configs. */
  function Swept<F(!new)>(
      fl: Floats<F>, metas: map<string, RegisterMeta<F>>, outside: Outside<F>,
      values: map<string, F>, configs: seq<Config<F>>, n: nat): Sweep<F>
    requires AllInTemplate(configs, metas) && n <= |configs|
  {
    if n == 0 then Sweep(values, false, [])
    else SweptOne(fl, metas, outside, Swept(fl, metas, outside, values, configs, n - 1), configs[n - 1])
  }

  class SimulationEngine<F(!new)> {
    var deviceValues: map<DeviceId, map<string, F>>

    constructor ()
      ensures deviceValues == map[]
    {
      deviceValues := map[];
    }

    /** The body of the tick loop for one device. */
    method Tick(fl: Floats<F>, device: DeviceId, metas: map<string, RegisterMeta<F>>, configs: seq<Config<F>>,
                outside: Outside<F>)
      returns (failed: bool, pushed: seq<(string, F)>)
      requires device in deviceValues && AllInTemplate(configs, metas)
      modifies this
      ensures device in deviceValues
      ensures Sweep(deviceValues[device], failed, pushed)
           == Swept(fl, metas, outside, old(deviceValues)[device], configs, |configs|)
      ensures deviceValues == old(deviceValues)[device := deviceValues[device]]
    {
      failed, pushed := false, [];
      for n := 0 to |configs|
        invariant device in deviceValues
        invariant Sweep(deviceValues[device], failed, pushed)
               == Swept(fl, metas, outside, old(deviceValues)[device], configs, n)
        invariant deviceValues == old(deviceValues)[device := deviceValues[device]]
      {
        var c := configs[n];
        var generated := Generated(fl, c, deviceValues[device], outside);
        if generated.Err? {
          failed := true;
        } else {
          var x := outside.altered(c.register, generated.value);
          deviceValues := deviceValues[device := deviceValues[device][c.register := x]];
          if outside.pushFails(c.register) {
            failed := true;
          } else {
            pushed := pushed + [(c.register, Scaled(fl, x, metas[c.register].scale))];
          }
        }
      }
    }
  }

  // --- What a sweep leaves behind ---

  ghost predicate DistinctRegisters<F>(configs: seq<Config<F>>) {
    forall i, j :: 0 <= i < j < |configs| ==> configs[i].register != configs[j].register
  }

  ghost predicate WellFormedExpression<F>(c: Config<F>) {
    c.mode.Computed? ==> Tokenize(c.mode.expression).Some? && Parse(Tokenize(c.mode.expression).value).Some?
  }

  function TreeOf<F>(c: Config<F>): Expr
    requires c.mode.Computed? && WellFormedExpression(c)
  {
    Parse(Tokenize(c.mode.expression).value).value
  }

  /** Only a register's own turn changes its value. */
  lemma {:induction false} SweepFrame<F(!new)>(
      fl: Floats<F>, metas: map<string, RegisterMeta<F>>, outside: Outside<F>,
      values: map<string, F>, configs: seq<Config<F>>, m: nat, n: nat, name: string)
    requires AllInTemplate(configs, metas) && m <= n <= |configs|
    requires forall k :: m <= k < n ==> configs[k].register != name
    ensures Get(Swept(fl, metas, outside, values, configs, n).values, name)
         == Get(Swept(fl, metas, outside, values, configs, m).values, name)
  {
    if m < n {
      SweepFrame(fl, metas, outside, values, configs, m, n - 1, name);
    }
  }

  lemma {:induction false} NoErrorSoFar<F(!new)>(
      fl: Floats<F>, metas: map<string, RegisterMeta<F>>, outside: Outside<F>,
      values: map<string, F>, configs: seq<Config<F>>, m: nat, n: nat)
    requires AllInTemplate(configs, metas) && m <= n <= |configs|
    requires !Swept(fl, metas, outside, values, configs, n).failed
    ensures !Swept(fl, metas, outside, values, configs, m).failed
  {
    if m < n {
      NoErrorSoFar(fl, metas, outside, values, configs, m, n - 1);
    }
  }

  /** The values register n's turn sees: new for the registers before it, old for all others. */
  function SeenBy<F(!new)>(before: map<string, F>, after: map<string, F>, configs: seq<Config<F>>, n: nat, name: string)
    : Option<F>
    requires n <= |configs|
  {
    if exists k :: 0 <= k < n && configs[k].register == name then Get(after, name) else Get(before, name)
  }

  lemma TurnSees<F(!new)>(
      fl: Floats<F>, metas: map<string, RegisterMeta<F>>, outside: Outside<F>,
      values: map<string, F>, configs: seq<Config<F>>, n: nat, name: string)
    requires AllInTemplate(configs, metas) && DistinctRegisters(configs) && n <= |configs|
    ensures Get(Swept(fl, metas, outside, values, configs, n).values, name)
         == SeenBy(values, Swept(fl, metas, outside, values, configs, |configs|).values, configs, n, name)
  {
    if k :| 0 <= k < n && configs[k].register == name {
      SweepFrame(fl, metas, outside, values, configs, n, |configs|, name);
    } else {
      SweepFrame(fl, metas, outside, values, configs, 0, n, name);
    }
  }

  /** A computed register's own turn, when it causes no error. */
  lemma ComputedTurn<F(!new)>(
      fl: Floats<F>, metas: map<string, RegisterMeta<F>>, outside: Outside<F>,
      before: Sweep<F>, c: Config<F>, seen: map<string, F>)
    requires fl.Lawful() && c.register in metas && c.mode.Computed? && WellFormedExpression(c)
    requires forall x :: outside.altered(c.register, x) == x
    requires forall name <- Variables(TreeOf(c)) :: Get(before.values, name) == Get(seen, name)
    requires !SweptOne(fl, metas, outside, before, c).failed
    ensures var after := SweptOne(fl, metas, outside, before, c).values;
      c.register in after && Meaning(fl, TreeOf(c), seen) == Ok(after[c.register])
  {
    EvaluationIsMeaning(fl, c.mode.expression, before.values);
    MeaningDependsOnMentioned(fl, TreeOf(c), before.values, seen);
  }

  /**
   After an error-free tick, every computed register the injector left alone holds
   its expression's meaning over new values of the registers before it in the
   sweep and old values of the others.
   */
  lemma ComputedOverSeenValues<F(!new)>(
      fl: Floats<F>, metas: map<string, RegisterMeta<F>>, outside: Outside<F>,
      values: map<string, F>, configs: seq<Config<F>>, n: nat, seen: map<string, F>)
    requires fl.Lawful() && AllInTemplate(configs, metas) && DistinctRegisters(configs) && n < |configs|
    requires configs[n].mode.Computed? && WellFormedExpression(configs[n])
    requires forall x :: outside.altered(configs[n].register, x) == x
    requires !Swept(fl, metas, outside, values, configs, |configs|).failed
    requires var after := Swept(fl, metas, outside, values, configs, |configs|).values;
      forall name <- Variables(TreeOf(configs[n])) :: Get(seen, name) == SeenBy(values, after, configs, n, name)
    ensures var after := Swept(fl, metas, outside, values, configs, |configs|).values;
      Get(after, configs[n].register).Some?
      && Meaning(fl, TreeOf(configs[n]), seen) == Ok(after[configs[n].register])
  {
    var c := configs[n];
    var before := Swept(fl, metas, outside, values, configs, n);
    forall name | name in Variables(TreeOf(c))
      ensures Get(before.values, name) == Get(seen, name)
    {
      TurnSees(fl, metas, outside, values, configs, n, name);
    }
    NoErrorSoFar(fl, metas, outside, values, configs, n + 1, |configs|);
    ComputedTurn(fl, metas, outside, before, c, seen);
    SweepFrame(fl, metas, outside, values, configs, n + 1, |configs|, c.register);
  }

  /** Every configured register an expression mentions has a strictly smaller sort order. */
  ghost predicate RefersBackward<F>(configs: seq<Config<F>>, metas: map<string, RegisterMeta<F>>, n: nat)
    requires n < |configs| && configs[n].mode.Computed? && WellFormedExpression(configs[n])
  {
    forall k :: 0 <= k < |configs| && configs[k].register in Variables(TreeOf(configs[n])) ==>
      SortOrderOf(metas, configs[k].register) < SortOrderOf(metas, configs[n].register)
  }

  /**
   If the computed registers refer backward in sort order, then after an
   error-free tick without anomalies on them all their equations hold at once
   over the stored values: the in-place sweep computes the declarative meaning.
   */
  lemma EquationsHoldTogether<F(!new)>(
      fl: Floats<F>, metas: map<string, RegisterMeta<F>>, outside: Outside<F>,
      values: map<string, F>, configs: seq<Config<F>>, n: nat)
    requires fl.Lawful() && AllInTemplate(configs, metas) && DistinctRegisters(configs) && n < |configs|
    requires Ordered(configs, SortKey(metas))
    requires configs[n].mode.Computed? && WellFormedExpression(configs[n])
    requires RefersBackward(configs, metas, n)
    requires forall x :: outside.altered(configs[n].register, x) == x
    requires !Swept(fl, metas, outside, values, configs, |configs|).failed
    ensures var after := Swept(fl, metas, outside, values, configs, |configs|).values;
      Get(after, configs[n].register).Some?
      && Meaning(fl, TreeOf(configs[n]), after) == Ok(after[configs[n].register])
  {
    var after := Swept(fl, metas, outside, values, configs, |configs|).values;
    forall name | name in Variables(TreeOf(configs[n]))
      ensures Get(after, name) == SeenBy(values, after, configs, n, name)
    {
      if k :| 0 <= k < |configs| && configs[k].register == name {
        assert SortKey(metas)(configs[k]) < SortKey(metas)(configs[n]);
        assert k < n;
      } else {
        SweepFrame(fl, metas, outside, values, configs, 0, |configs|, name);
      }
    }
    ComputedOverSeenValues(fl, metas, outside, values, configs, n, after);
  }

  // --- The configs a device runs ---

  /** Sorting and filtering keep exactly the configs of template registers, in sort order. */
  lemma ValidConfigsSweep<F(!new)>(configs: seq<Config<F>>, metas: map<string, RegisterMeta<F>>)
    ensures var valid := ValidConfigs(configs, metas);
      && AllInTemplate(valid, metas)
      && Ordered(valid, SortKey(metas))
      && forall c :: c in valid <==> c in configs && c.register in metas
  {
    var sorted := SortBy(configs, SortKey(metas));
    SortBySorts(configs, SortKey(metas));
    FilterOrdered(sorted, InTemplate(metas), SortKey(metas));
    var valid := ValidConfigs(configs, metas);
    forall c
      ensures c in valid <==> c in configs && c.register in metas
    {
      SortByMembers(configs, SortKey(metas), c);
    }
    forall n | 0 <= n < |valid|
      ensures valid[n].register in metas
    {
      assert valid[n] in valid;
    }
  }

  lemma {:induction false} FilterOrdered<T(!new)>(xs: seq<T>, keep: T -> bool, key: T -> int)
    requires Ordered(xs, key)
    ensures Ordered(Filter(xs, keep), key)
  {
    if xs != [] {
      var rest := xs[1..];
      FilterOrdered(rest, keep, key);
      var tail := Filter(rest, keep);
      forall j | 0 <= j < |tail|
        ensures key(xs[0]) <= key(tail[j])
      {
        assert tail[j] in tail;
        var k :| 0 <= k < |rest| && rest[k] == tail[j];
        assert xs[k + 1] == tail[j];
      }
    }
  }

  lemma {:induction false} InsertDistinct<F>(x: Config<F>, sorted: seq<Config<F>>, key: Config<F> -> int)
    requires DistinctRegisters(sorted)
    requires forall c <- sorted :: c.register != x.register
    ensures DistinctRegisters(InsertBy(x, sorted, key))
  {
    if sorted != [] && key(sorted[0]) < key(x) {
      var rest := InsertBy(x, sorted[1..], key);
      InsertDistinct(x, sorted[1..], key);
      forall j | 0 <= j < |rest|
        ensures rest[j].register != sorted[0].register
      {
        InsertByMembers(x, sorted[1..], key, rest[j]);
      }
    }
  }

  lemma {:induction false} SortDistinct<F(!new)>(configs: seq<Config<F>>, key: Config<F> -> int)
    requires DistinctRegisters(configs)
    ensures DistinctRegisters(SortBy(configs, key))
  {
    if configs != [] {
      var tail := SortBy(configs[1..], key);
      SortDistinct(configs[1..], key);
      forall c | c in tail
        ensures c.register != configs[0].register
      {
        SortByMembers(configs[1..], key, c);
      }
      InsertDistinct(configs[0], tail, key);
    }
  }

  lemma {:induction false} FilterDistinct<F(!new)>(configs: seq<Config<F>>, keep: Config<F> -> bool)
    requires DistinctRegisters(configs)
    ensures DistinctRegisters(Filter(configs, keep))
  {
    if configs != [] {
      FilterDistinct(configs[1..], keep);
      var tail := Filter(configs[1..], keep);
      forall j | 0 <= j < |tail|
        ensures tail[j].register != configs[0].register
      {
        assert tail[j] in tail;
      }
    }
  }

  /**
   A device whose configs name each register at most once runs them in an order in
   which backward-referring computed registers satisfy their equations after every
   error-free tick.
   */
  lemma DeviceTickSolvesEquations<F(!new)>(
      fl: Floats<F>, metas: map<string, RegisterMeta<F>>, outside: Outside<F>,
      values: map<string, F>, configs: seq<Config<F>>, n: nat)
    requires fl.Lawful() && DistinctRegisters(configs)
    requires var valid := ValidConfigs(configs, metas);
      && n < |valid| && valid[n].mode.Computed? && WellFormedExpression(valid[n])
      && RefersBackward(valid, metas, n)
      && forall x :: outside.altered(valid[n].register, x) == x
    ensures AllInTemplate(ValidConfigs(configs, metas), metas)
    ensures var valid := ValidConfigs(configs, metas);
      var sweep := Swept(fl, metas, outside, values, valid, |valid|);
      !sweep.failed ==>
        && Get(sweep.values, valid[n].register).Some?
        && Meaning(fl, TreeOf(valid[n]), sweep.values) == Ok(sweep.values[valid[n].register])
  {
    var valid := ValidConfigs(configs, metas);
    ValidConfigsSweep(configs, metas);
    SortDistinct(configs, SortKey(metas));
    FilterDistinct(SortBy(configs, SortKey(metas)), InTemplate(metas));
    if !Swept(fl, metas, outside, values, valid, |valid|).failed {
      EquationsHoldTogether(fl, metas, outside, values, valid, n);
    }
  }
}
