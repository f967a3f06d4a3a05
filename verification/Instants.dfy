/** What the validators' disjoint intervals mean, and the order their sorting keeps. */
module Instants {
  import opened Prelude
  import opened Registers
  import opened TemplateService
  import opened Anomalies

  /** Two windows are disjoint exactly when no instant lies in both. */
  lemma WindowsApartExactly(a: Step, b: Step)
    requires a.Valid() && b.Valid()
    ensures Window().Disjoint(a, b) <==> !exists t: real :: InBoth(a, b, t)
  {
    if !Window().Disjoint(a, b) {
      var start := if a.trigger <= b.trigger then b.trigger else a.trigger;
      assert InBoth(a, b, start as real);
    }
  }

  predicate InBoth(a: Step, b: Step, t: real) {
    && a.trigger as real <= t < (a.trigger + a.duration) as real
    && b.trigger as real <= t < (b.trigger + b.duration) as real
  }

  /** An accepted timeline: registers the template has, and no instant in two windows of one register. */
  lemma AcceptableExactly(steps: seq<Step>, registers: set<string>)
    requires AllValid(steps)
    ensures Acceptable(steps, registers) <==>
      && (forall s <- steps :: s.register in registers)
      && forall i, j :: 0 <= i < j < |steps| ==> NeverTogether(steps, i, j)
  {
    forall i, j | 0 <= i < j < |steps|
      ensures NeverTogether(steps, i, j) <==>
        (steps[i].register == steps[j].register ==> Window().Disjoint(steps[i], steps[j]))
    {
      WindowsApartExactly(steps[i], steps[j]);
    }
    assert forall i :: 0 <= i < |steps| ==> RegisterOf()(steps[i]) == steps[i].register;
  }

  ghost predicate NeverTogether(steps: seq<Step>, i: int, j: int)
    requires 0 <= i < j < |steps|
  {
    steps[i].register == steps[j].register ==> forall t: real :: !InBoth(steps[i], steps[j], t)
  }

  /** Two registers are apart exactly when they share no address. */
  lemma WordsApartExactly(a: Register, b: Register)
    ensures Words().Disjoint(a, b) <==> !exists x: nat :: Occupies(a, x) && Occupies(b, x)
  {
    if !Words().Disjoint(a, b) {
      var start := if a.address <= b.address then b.address else a.address;
      assert Occupies(a, start) && Occupies(b, start);
    }
  }

  predicate Occupies(r: Register, x: nat) {
    r.address <= x < r.address + WordsOfType(r.dataType)
  }

  /** Sixteen bits to a word; a type the adapter does not know takes one. */
  function WordsOfType(dataType: DataType): nat {
    match dataType
    case Int16 | UInt16 => 1
    case Int32 | UInt32 | Float32 => 2
    case Float64 => 4
    case OtherType(_) => 1
  }

  lemma AddressesDisjointExactly(registers: seq<Register>)
    ensures AddressesDisjoint(registers) <==> forall i, j :: 0 <= i < j < |registers| ==> ShareNothing(registers, i, j)
  {
    forall i, j | 0 <= i < j < |registers|
      ensures ShareNothing(registers, i, j) <==>
        (registers[i].functionCode == registers[j].functionCode ==> Words().Disjoint(registers[i], registers[j]))
    {
      WordsApartExactly(registers[i], registers[j]);
    }
    assert forall i :: 0 <= i < |registers| ==> FunctionCodeOf()(registers[i]) == registers[i].functionCode;
  }

  ghost predicate ShareNothing(registers: seq<Register>, i: int, j: int)
    requires 0 <= i < j < |registers|
  {
    registers[i].functionCode == registers[j].functionCode ==>
      forall x: nat :: !(Occupies(registers[i], x) && Occupies(registers[j], x))
  }

  // --- Sorting is stable ---

  function KeyedBy<T>(key: T -> int, k: int): T -> bool {
    (x: T) => key(x) == k
  }

  lemma {:induction false} InsertIsStable<T(!new)>(x: T, sorted: seq<T>, key: T -> int, k: int)
    ensures Filter(InsertBy(x, sorted, key), KeyedBy(key, k))
         == (if key(x) == k then [x] else []) + Filter(sorted, KeyedBy(key, k))
    decreases |sorted|
  {
    if sorted == [] || key(x) <= key(sorted[0]) {
      assert ([x] + sorted)[1..] == sorted;
    } else {
      var rest := InsertBy(x, sorted[1..], key);
      InsertIsStable(x, sorted[1..], key, k);
      assert ([sorted[0]] + rest)[1..] == rest;
    }
  }

  /** Elements with equal keys keep their order, as `sorted` promises. */
  lemma {:induction false} SortIsStable<T(!new)>(xs: seq<T>, key: T -> int, k: int)
    ensures Filter(SortBy(xs, key), KeyedBy(key, k)) == Filter(xs, KeyedBy(key, k))
  {
    if xs != [] {
      SortIsStable(xs[1..], key, k);
      InsertIsStable(xs[0], SortBy(xs[1..], key), key, k);
    }
  }
}
